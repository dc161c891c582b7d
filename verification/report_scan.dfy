/**
 * The marker-based search of `_fetch_from_tabular_text` over the rows of the engine's
 * tab- or comma-separated table report.
 *
 * The search looks for the annual summary title, then within the next 39 rows a
 * "site and source energy" row, then within the 14 rows after that a header naming both
 * metric columns, then, before the first blank row, the row whose first cell is
 * "total site energy". The first (title row, subsection row) pair, in row order, for
 * which all of this succeeds gives the result.
 *
 * The search itself is written over a record of row tests and a cell reader, so that its
 * lemmas reason about row positions only; `Report` and `Reader` are the tests and the
 * reader of the source.
 */
module ReportScan {
  import opened Wrappers
  import opened Text

  type Row = seq<string>

  /** The two metrics read from one report: total site energy and energy per area. */
  type Pair = (Option<real>, Option<real>)

  const SectionTitle := "annual building utility performance summary"
  const Subsection := "site and source energy"
  const TotalEnergyColumn := "total energy"
  const PerAreaColumn := "energy per total building area"
  const TotalSiteEnergyRow := "total site energy"

  function Min(a: int, b: int): int {
    if a < b then a else b
  }

  /** Every cell of every row with surrounding whitespace removed, as the file is read. */
  function StripRows(raw: seq<Row>): (rows: seq<Row>)
    ensures |rows| == |raw|
    ensures forall i :: 0 <= i < |raw| ==> |rows[i]| == |raw[i]|
    ensures forall i, k :: 0 <= i < |raw| && 0 <= k < |raw[i]| ==> rows[i][k] == Strip(raw[i][k])
  {
    seq(|raw|, i requires 0 <= i < |raw| => seq(|raw[i]|, k requires 0 <= k < |raw[i]| => Strip(raw[i][k])))
  }

  // ----- The row tests of the source -----

  /** `any(marker in c.lower() for c in row)`. */
  predicate RowMentions(row: Row, marker: string) {
    exists c :: c in row && Contains(LowerStr(c), marker)
  }

  predicate IsTitleRow(row: Row) {
    RowMentions(row, SectionTitle)
  }

  predicate IsSubsectionRow(row: Row) {
    RowMentions(row, Subsection)
  }

  /** A header row names both metric columns. */
  predicate IsHeaderRow(row: Row) {
    RowMentions(row, TotalEnergyColumn) && RowMentions(row, PerAreaColumn)
  }

  /** `not r2 or all(c == "" for c in r2)`. */
  predicate IsBlankRow(row: Row) {
    |row| == 0 || forall c :: c in row ==> c == ""
  }

  /** `r2[0].strip().lower() == "total site energy"` on a non-blank row. */
  predicate IsTotalSiteRow(row: Row) {
    |row| > 0 && LowerStr(Strip(row[0])) == TotalSiteEnergyRow
  }

  /** A total row is never blank, so the blank test that comes first never stops the walk there. */
  lemma TotalRowNotBlank(row: Row)
    requires IsTotalSiteRow(row)
    ensures !IsBlankRow(row)
  {
    var c := row[0];
    assert |LowerStr(Strip(c))| == |TotalSiteEnergyRow|;
    assert |Strip(c)| <= |c|;
    assert c in row;
  }

  /** The first column index at or after `k` whose lower-cased cell contains `marker`. */
  function FirstColumnFrom(row: Row, marker: string, k: nat): (r: Option<nat>)
    requires k <= |row|
    ensures r.Some? ==> k <= r.value < |row| && Contains(LowerStr(row[r.value]), marker)
    ensures forall j :: k <= j < |row| && (r.None? || j < r.value) ==> !Contains(LowerStr(row[j]), marker)
    decreases |row| - k
  {
    if k == |row| then None
    else if Contains(LowerStr(row[k]), marker) then Some(k)
    else FirstColumnFrom(row, marker, k + 1)
  }

  /** `next(i2 for i2, c in enumerate(header) if marker in c)`, None for StopIteration. */
  function FirstColumnWith(row: Row, marker: string): Option<nat> {
    FirstColumnFrom(row, marker, 0)
  }

  /** The column lookup finds a column exactly when the row mentions the marker. */
  lemma FirstColumnWhenMentioned(row: Row, marker: string)
    ensures RowMentions(row, marker) <==> FirstColumnWith(row, marker).Some?
  {
    if RowMentions(row, marker) {
      var c :| c in row && Contains(LowerStr(c), marker);
      var j :| 0 <= j < |row| && row[j] == c;
    }
  }

  /** `_safe_float(r2[col]) if col < len(r2) else None`. */
  function CellNumber(row: Row, col: nat, toNumber: string -> Option<real>): Option<real> {
    if col < |row| then toNumber(row[col]) else None
  }

  /**
   * The metrics of the total row `row` in the columns the header names; None when the
   * header lacks a column (the `StopIteration` branch).
   */
  function ReadCells(header: Row, row: Row, toNumber: string -> Option<real>): Option<Pair> {
    var colTotal := FirstColumnWith(header, TotalEnergyColumn);
    var colPerArea := FirstColumnWith(header, PerAreaColumn);
    if colTotal.None? || colPerArea.None? then None
    else Some((CellNumber(row, colTotal.value, toNumber), CellNumber(row, colPerArea.value, toNumber)))
  }

  /** Below a header row the cells can always be read: the `StopIteration` branch is dead. */
  lemma ReadCellsUnderHeader(header: Row, row: Row, toNumber: string -> Option<real>)
    requires IsHeaderRow(header)
    ensures ReadCells(header, row, toNumber).Some?
  {
    FirstColumnWhenMentioned(header, TotalEnergyColumn);
    FirstColumnWhenMentioned(header, PerAreaColumn);
  }

  // ----- The search, over any row tests -----

  datatype RowTests = RowTests(
    title: Row -> bool, subsection: Row -> bool, header: Row -> bool, blank: Row -> bool, total: Row -> bool)

  const Report := RowTests(IsTitleRow, IsSubsectionRow, IsHeaderRow, IsBlankRow, IsTotalSiteRow)

  function Reader(toNumber: string -> Option<real>): (Row, Row) -> Option<Pair> {
    (header, row) => ReadCells(header, row, toNumber)
  }

  /** The first header row at index `k` or later and before `limit`. */
  function HeaderFrom(rows: seq<Row>, t: RowTests, limit: nat, k: nat): (r: Option<nat>)
    requires limit <= |rows|
    ensures r.Some? ==> k <= r.value < limit && t.header(rows[r.value])
    ensures forall n :: k <= n < limit && (r.None? || n < r.value) ==> !t.header(rows[n])
    decreases limit - k
  {
    if k >= limit then None
    else if t.header(rows[k]) then Some(k)
    else HeaderFrom(rows, t, limit, k + 1)
  }

  /** The first total row at index `m` or later, unless a blank row comes first. */
  function TotalRowFrom(rows: seq<Row>, t: RowTests, m: nat): (r: Option<nat>)
    ensures r.Some? ==> m <= r.value < |rows| && t.total(rows[r.value]) && !t.blank(rows[r.value])
    ensures r.Some? ==> forall n :: m <= n < r.value ==> !t.blank(rows[n]) && !t.total(rows[n])
    decreases |rows| - m
  {
    if m >= |rows| then None
    else if t.blank(rows[m]) then None
    else if t.total(rows[m]) then Some(m)
    else TotalRowFrom(rows, t, m + 1)
  }

  /** The walk reaches a total row that no blank or earlier total row precedes. */
  lemma {:induction false} TotalRowFromReaches(rows: seq<Row>, t: RowTests, m: nat, m1: nat)
    requires m <= m1 < |rows| && t.total(rows[m1]) && !t.blank(rows[m1])
    requires forall n :: m <= n < m1 ==> !t.blank(rows[n]) && !t.total(rows[n])
    ensures TotalRowFrom(rows, t, m) == Some(m1)
    decreases m1 - m
  {
    if m < m1 {
      TotalRowFromReaches(rows, t, m + 1, m1);
    }
  }

  /** What the search finds below a subsection row `j`, if anything. */
  function TryBlock(rows: seq<Row>, t: RowTests, read: (Row, Row) -> Option<Pair>, j: nat): Option<Pair>
    requires j < |rows|
  {
    match HeaderFrom(rows, t, Min(j + 15, |rows|), j + 1)
    case None => None
    case Some(h) =>
      match TotalRowFrom(rows, t, h + 1)
      case None => None
      case Some(m) => read(rows[h], rows[m])
  }

  /** The search for a subsection row `j` below the title row `i`, from `j` on. */
  function ScanBelow(rows: seq<Row>, t: RowTests, read: (Row, Row) -> Option<Pair>, i: nat, j: nat): Option<Pair>
    decreases |rows| - j
  {
    if j >= Min(i + 40, |rows|) then None
    else if t.subsection(rows[j]) && TryBlock(rows, t, read, j).Some? then TryBlock(rows, t, read, j)
    else ScanBelow(rows, t, read, i, j + 1)
  }

  /** The search for a title row, from row `i` on. */
  function ScanFrom(rows: seq<Row>, t: RowTests, read: (Row, Row) -> Option<Pair>, i: nat): Option<Pair>
    decreases |rows| - i
  {
    if i >= |rows| then None
    else if t.title(rows[i]) && ScanBelow(rows, t, read, i, i + 1).Some? then ScanBelow(rows, t, read, i, i + 1)
    else ScanFrom(rows, t, read, i + 1)
  }

  /** The metrics of the stripped rows of a report: the cells of the first match, if any. */
  function ScanReport(rows: seq<Row>, toNumber: string -> Option<real>): Pair {
    match ScanFrom(rows, Report, Reader(toNumber), 0)
    case Some(p) => p
    case None => (None, None)
  }

  /** The result of `_fetch_from_tabular_text` for a file that may be missing. */
  function TabularMetrics(file: Option<seq<Row>>, toNumber: string -> Option<real>): Pair {
    match file
    case None => (None, None)
    case Some(raw) => ScanReport(StripRows(raw), toNumber)
  }

  // ----- The source's loops -----

  /** The search for a header row among the 14 rows after the subsection row `j`. */
  method FindHeader(rows: seq<Row>, t: RowTests, j: nat) returns (headerIdx: Option<nat>)
    requires j < |rows|
    ensures headerIdx == HeaderFrom(rows, t, Min(j + 15, |rows|), j + 1)
  {
    headerIdx := None;
    var kEnd := Min(j + 15, |rows|);
    var k := j + 1;
    while k < kEnd
      invariant j + 1 <= k <= kEnd
      invariant HeaderFrom(rows, t, kEnd, j + 1) == HeaderFrom(rows, t, kEnd, k)
    {
      if t.header(rows[k]) {
        headerIdx := Some(k);
        break;
      }
      k := k + 1;
    }
  }

  /** The walk down from the row after header `h` to the total row, stopping at a blank row. */
  method FindTotalRow(rows: seq<Row>, t: RowTests, h: nat) returns (total: Option<nat>)
    ensures total == TotalRowFrom(rows, t, h + 1)
  {
    var m := h + 1;
    while m < |rows|
      invariant h + 1 <= m
      invariant TotalRowFrom(rows, t, h + 1) == TotalRowFrom(rows, t, m)
      decreases |rows| - m
    {
      var r2 := rows[m];
      if t.blank(r2) {
        return None;
      }
      if t.total(r2) {
        return Some(m);
      }
      m := m + 1;
    }
    return None;
  }

  /** The header search, the column lookup and the total-row walk below the subsection row `j`. */
  method ReadBlock(rows: seq<Row>, t: RowTests, read: (Row, Row) -> Option<Pair>, j: nat) returns (r: Option<Pair>)
    requires j < |rows|
    ensures r == TryBlock(rows, t, read, j)
  {
    var headerIdx := FindHeader(rows, t, j);
    if headerIdx.None? {
      return None;
    }
    var m := FindTotalRow(rows, t, headerIdx.value);
    if m.None? {
      return None;
    }
    return read(rows[headerIdx.value], rows[m.value]);
  }

  /** The two nested loops over title rows and subsection rows. */
  method Scan(rows: seq<Row>, t: RowTests, read: (Row, Row) -> Option<Pair>) returns (r: Option<Pair>)
    ensures r == ScanFrom(rows, t, read, 0)
  {
    var i := 0;
    while i < |rows|
      invariant 0 <= i <= |rows|
      invariant ScanFrom(rows, t, read, 0) == ScanFrom(rows, t, read, i)
    {
      if t.title(rows[i]) {
        var j := i + 1;
        var jEnd := Min(i + 40, |rows|);
        while j < jEnd
          invariant i + 1 <= j <= jEnd
          invariant ScanBelow(rows, t, read, i, i + 1) == ScanBelow(rows, t, read, i, j)
        {
          if t.subsection(rows[j]) {
            var found := ReadBlock(rows, t, read, j);
            if found.Some? {
              return found;
            }
          }
          j := j + 1;
        }
      }
      i := i + 1;
    }
    return None;
  }

  /** `_fetch_from_tabular_text`: the first title row and subsection row that lead to a total row. */
  method FetchFromTabularText(file: Option<seq<Row>>, toNumber: string -> Option<real>)
    returns (total: Option<real>, perArea: Option<real>)
    ensures (total, perArea) == TabularMetrics(file, toNumber)
  {
    if file.None? {
      return None, None;
    }
    var rows := StripRows(file.value);
    var found := Scan(rows, Report, Reader(toNumber));
    if found.None? {
      return None, None;
    }
    return found.value.0, found.value.1;
  }

  // ----- What the search finds -----

  /**
   * Below the subsection row `j`: `h` is the first header row among the next 14 rows, and
   * `m` is the first total row after it, with no blank row in between.
   */
  ghost predicate Block(rows: seq<Row>, t: RowTests, j: nat, h: nat, m: nat) {
    j < h < Min(j + 15, |rows|) && h < m < |rows|
    && t.header(rows[h]) && (forall k :: j < k < h ==> !t.header(rows[k]))
    && t.total(rows[m]) && !t.blank(rows[m])
    && (forall n :: h < n < m ==> !t.blank(rows[n]) && !t.total(rows[n]))
  }

  /** A complete match: title row `i`, subsection row `j` within the next 39 rows, and its block. */
  ghost predicate Chain(rows: seq<Row>, t: RowTests, read: (Row, Row) -> Option<Pair>, i: nat, j: nat, h: nat, m: nat) {
    i < j < Min(i + 40, |rows|) && t.title(rows[i]) && t.subsection(rows[j])
    && Block(rows, t, j, h, m) && read(rows[h], rows[m]).Some?
  }

  lemma TryBlockFindsBlock(rows: seq<Row>, t: RowTests, read: (Row, Row) -> Option<Pair>, j: nat)
    returns (h: nat, m: nat)
    requires j < |rows| && TryBlock(rows, t, read, j).Some?
    ensures Block(rows, t, j, h, m) && TryBlock(rows, t, read, j) == read(rows[h], rows[m])
  {
    h := HeaderFrom(rows, t, Min(j + 15, |rows|), j + 1).value;
    m := TotalRowFrom(rows, t, h + 1).value;
  }

  lemma BlockIsFound(rows: seq<Row>, t: RowTests, read: (Row, Row) -> Option<Pair>, j: nat, h: nat, m: nat)
    requires j < |rows| && Block(rows, t, j, h, m)
    ensures TryBlock(rows, t, read, j) == read(rows[h], rows[m])
  {
    assert HeaderFrom(rows, t, Min(j + 15, |rows|), j + 1) == Some(h);
    TotalRowFromReaches(rows, t, h + 1, m);
  }

  /** The subsection search from `j0` finds the first subsection row that has a block. */
  lemma {:induction false} ScanBelowFound(rows: seq<Row>, t: RowTests, read: (Row, Row) -> Option<Pair>, i: nat, j0: nat)
    returns (j: nat, h: nat, m: nat)
    requires ScanBelow(rows, t, read, i, j0).Some?
    ensures j0 <= j < Min(i + 40, |rows|) && t.subsection(rows[j]) && Block(rows, t, j, h, m)
    ensures ScanBelow(rows, t, read, i, j0) == read(rows[h], rows[m])
    ensures forall j': nat, h': nat, m': nat :: j0 <= j' < j && t.subsection(rows[j']) && Block(rows, t, j', h', m') ==>
      read(rows[h'], rows[m']).None?
    decreases |rows| - j0
  {
    if t.subsection(rows[j0]) && TryBlock(rows, t, read, j0).Some? {
      j := j0;
      h, m := TryBlockFindsBlock(rows, t, read, j0);
    } else {
      assert ScanBelow(rows, t, read, i, j0) == ScanBelow(rows, t, read, i, j0 + 1);
      j, h, m := ScanBelowFound(rows, t, read, i, j0 + 1);
      forall j': nat, h': nat, m': nat | j0 <= j' < j && t.subsection(rows[j']) && Block(rows, t, j', h', m')
        ensures read(rows[h'], rows[m']).None?
      {
        if j' == j0 {
          BlockIsFound(rows, t, read, j0, h', m');
        }
      }
    }
  }

  lemma {:induction false} ScanBelowComplete(rows: seq<Row>, t: RowTests, read: (Row, Row) -> Option<Pair>,
                                             i: nat, j0: nat, j: nat, h: nat, m: nat)
    requires j0 <= j < Min(i + 40, |rows|) && t.subsection(rows[j])
    requires Block(rows, t, j, h, m) && read(rows[h], rows[m]).Some?
    ensures ScanBelow(rows, t, read, i, j0).Some?
    decreases j - j0
  {
    if j0 < j {
      if !(t.subsection(rows[j0]) && TryBlock(rows, t, read, j0).Some?) {
        ScanBelowComplete(rows, t, read, i, j0 + 1, j, h, m);
      }
    } else {
      BlockIsFound(rows, t, read, j, h, m);
    }
  }

  /** The title search from `i0` finds the first title row below which a complete match lies. */
  lemma {:induction false} ScanFromFound(rows: seq<Row>, t: RowTests, read: (Row, Row) -> Option<Pair>, i0: nat)
    returns (i: nat, j: nat, h: nat, m: nat)
    requires ScanFrom(rows, t, read, i0).Some?
    ensures i0 <= i && Chain(rows, t, read, i, j, h, m)
    ensures ScanFrom(rows, t, read, i0) == read(rows[h], rows[m])
    ensures forall i': nat, j': nat, h': nat, m': nat :: Chain(rows, t, read, i', j', h', m') && i0 <= i' ==>
      i < i' || (i == i' && j <= j')
    decreases |rows| - i0
  {
    if t.title(rows[i0]) && ScanBelow(rows, t, read, i0, i0 + 1).Some? {
      i := i0;
      j, h, m := ScanBelowFound(rows, t, read, i0, i0 + 1);
    } else {
      i, j, h, m := ScanFromFound(rows, t, read, i0 + 1);
      forall i': nat, j': nat, h': nat, m': nat | Chain(rows, t, read, i', j', h', m') && i' == i0 ensures false {
        ScanBelowComplete(rows, t, read, i0, i0 + 1, j', h', m');
      }
    }
  }

  lemma {:induction false} ScanFromComplete(rows: seq<Row>, t: RowTests, read: (Row, Row) -> Option<Pair>,
                                            i0: nat, i: nat, j: nat, h: nat, m: nat)
    requires i0 <= i && Chain(rows, t, read, i, j, h, m)
    ensures ScanFrom(rows, t, read, i0).Some?
    decreases i - i0
  {
    if i0 < i {
      if !(t.title(rows[i0]) && ScanBelow(rows, t, read, i0, i0 + 1).Some?) {
        ScanFromComplete(rows, t, read, i0 + 1, i, j, h, m);
      }
    } else {
      ScanBelowComplete(rows, t, read, i, i + 1, j, h, m);
    }
  }

  /** When a complete match exists, the search reads one that comes no later. */
  lemma FirstChainNoLater(rows: seq<Row>, t: RowTests, read: (Row, Row) -> Option<Pair>, i: nat, j: nat, h: nat, m: nat)
    returns (i': nat, j': nat, h': nat, m': nat)
    requires Chain(rows, t, read, i, j, h, m)
    ensures Chain(rows, t, read, i', j', h', m') && (i' < i || (i' == i && j' <= j))
    ensures ScanFrom(rows, t, read, 0) == read(rows[h'], rows[m'])
  {
    ScanFromComplete(rows, t, read, 0, i, j, h, m);
    i', j', h', m' := ScanFromFound(rows, t, read, 0);
  }

  // ----- The same facts for the source's row tests -----

  /** A complete match in the report, with the source's row tests. */
  ghost predicate Match(rows: seq<Row>, i: nat, j: nat, h: nat, m: nat) {
    i < j < Min(i + 40, |rows|) && IsTitleRow(rows[i]) && IsSubsectionRow(rows[j])
    && j < h < Min(j + 15, |rows|) && h < m < |rows|
    && IsHeaderRow(rows[h]) && (forall k :: j < k < h ==> !IsHeaderRow(rows[k]))
    && IsTotalSiteRow(rows[m]) && (forall n :: h < n < m ==> !IsBlankRow(rows[n]) && !IsTotalSiteRow(rows[n]))
  }

  lemma MatchToChain(rows: seq<Row>, toNumber: string -> Option<real>, i: nat, j: nat, h: nat, m: nat)
    requires Match(rows, i, j, h, m)
    ensures Chain(rows, Report, Reader(toNumber), i, j, h, m)
  {
    TotalRowNotBlank(rows[m]);
    ReadCellsUnderHeader(rows[h], rows[m], toNumber);
  }

  lemma ChainToMatch(rows: seq<Row>, toNumber: string -> Option<real>, i: nat, j: nat, h: nat, m: nat)
    requires Chain(rows, Report, Reader(toNumber), i, j, h, m)
    ensures Match(rows, i, j, h, m)
  {
  }

  /**
   * Soundness and priority: when a report yields a match, its metrics are the cells of a
   * complete match, and no complete match starts at an earlier title row, or at the same
   * title row with an earlier subsection row.
   */
  lemma ScanReportFromFirstMatch(rows: seq<Row>, toNumber: string -> Option<real>)
    returns (i: nat, j: nat, h: nat, m: nat)
    requires ScanReport(rows, toNumber) != (None, None)
    ensures Match(rows, i, j, h, m)
    ensures Some(ScanReport(rows, toNumber)) == ReadCells(rows[h], rows[m], toNumber)
    ensures forall i': nat, j': nat, h': nat, m': nat :: Match(rows, i', j', h', m') ==> i < i' || (i == i' && j <= j')
  {
    i, j, h, m := ScanFromFound(rows, Report, Reader(toNumber), 0);
    ChainToMatch(rows, toNumber, i, j, h, m);
    forall i': nat, j': nat, h': nat, m': nat | Match(rows, i', j', h', m') ensures i < i' || (i == i' && j <= j') {
      MatchToChain(rows, toNumber, i', j', h', m');
    }
  }

  /**
   * Completeness: a report with a complete match yields the cells of a complete match that
   * comes no later than it.
   */
  lemma ScanReportWhenMatch(rows: seq<Row>, toNumber: string -> Option<real>, i: nat, j: nat, h: nat, m: nat)
    returns (i': nat, j': nat, h': nat, m': nat)
    requires Match(rows, i, j, h, m)
    ensures Match(rows, i', j', h', m') && (i' < i || (i' == i && j' <= j))
    ensures Some(ScanReport(rows, toNumber)) == ReadCells(rows[h'], rows[m'], toNumber)
  {
    MatchToChain(rows, toNumber, i, j, h, m);
    i', j', h', m' := FirstChainNoLater(rows, Report, Reader(toNumber), i, j, h, m);
    ChainToMatch(rows, toNumber, i', j', h', m');
  }

  /** A missing report, and a report without a complete match, yield no metrics. */
  lemma TabularMetricsWithoutMatch(file: Option<seq<Row>>, toNumber: string -> Option<real>)
    requires file.Some? ==> forall i: nat, j: nat, h: nat, m: nat :: !Match(StripRows(file.value), i, j, h, m)
    ensures TabularMetrics(file, toNumber) == (None, None)
  {
    if file.Some? {
      var rows := StripRows(file.value);
      if ScanFrom(rows, Report, Reader(toNumber), 0).Some? {
        var i, j, h, m := ScanFromFound(rows, Report, Reader(toNumber), 0);
        ChainToMatch(rows, toNumber, i, j, h, m);
      }
    }
  }
}
