/**
 * `fetch_metrics_any`: the two metrics are taken from the engine's SQL output when it has
 * either of them, else from the tab-separated table report, else from the comma-separated
 * one, and the source that supplied them is recorded.
 */
module Extraction {
  import opened Wrappers
  import opened Text
  import opened ReportScan

  /** One row of the engine's `TabularDataWithStrings` table. */
  datatype TabularRecord = TabularRecord(tableName: string, rowName: string, columnName: string, value: string)

  /** What the engine left in its output directory: the SQL table, and the two reports as rows of cells. */
  datatype OutputDir = OutputDir(sql: Option<seq<TabularRecord>>, tab: Option<seq<Row>>, csv: Option<seq<Row>>)

  /** The tag written next to the metrics: "sql", "tab", "csv" or "none". */
  datatype Source = Sql | Tab | Csv | NoSource

  datatype Metrics = Metrics(total: Option<real>, perArea: Option<real>, source: Source)

  /**
   * `_safe_float`: commas removed and whitespace stripped, then the text is parsed as a
   * float; `parseFloat` is the language's float parser, None where it raises.
   */
  function SafeFloat(s: string, parseFloat: string -> Option<real>): Option<real> {
    parseFloat(Strip(ReplaceAll(s, ",", "")))
  }

  function SafeFloatOf(parseFloat: string -> Option<real>): string -> Option<real> {
    s => SafeFloat(s, parseFloat)
  }

  /** `lower(x) LIKE 'prefix%'` for a prefix without wildcards: the lower-cased text starts with it. */
  predicate LikePrefix(x: string, prefix: string) {
    prefix <= LowerStr(x)
  }

  /** The WHERE clause of the two queries, for the column whose name starts with `columnPrefix`. */
  predicate Selected(r: TabularRecord, columnPrefix: string) {
    LikePrefix(r.tableName, Subsection) && LowerStr(r.rowName) == TotalSiteEnergyRow
    && LikePrefix(r.columnName, columnPrefix)
  }

  /** `fetchone()`: the value of the first selected record in table order. */
  function FirstSelected(records: seq<TabularRecord>, columnPrefix: string): (r: Option<string>)
    ensures r.Some? <==> exists k :: 0 <= k < |records| && Selected(records[k], columnPrefix)
    ensures r.Some? ==>
      exists k :: 0 <= k < |records| && Selected(records[k], columnPrefix) && records[k].value == r.value
        && forall k' :: 0 <= k' < k ==> !Selected(records[k'], columnPrefix)
  {
    if |records| == 0 then None
    else if Selected(records[0], columnPrefix) then Some(records[0].value)
    else
      var rest := FirstSelected(records[1..], columnPrefix);
      assert forall k :: 1 <= k < |records| ==> records[k] == records[1..][k - 1];
      rest
  }

  /** `fetch_from_sql`: the first selected value of each query, as a number. */
  function SqlMetrics(sql: Option<seq<TabularRecord>>, parseFloat: string -> Option<real>): Pair {
    match sql
    case None => (None, None)
    case Some(records) =>
      var t := FirstSelected(records, TotalEnergyColumn);
      var p := FirstSelected(records, PerAreaColumn);
      (if t.Some? then SafeFloat(t.value, parseFloat) else None,
       if p.Some? then SafeFloat(p.value, parseFloat) else None)
  }

  predicate HasAny(p: Pair) {
    p.0.Some? || p.1.Some?
  }

  /**
   * The metrics of one output directory, taken from the first source that has either of
   * them. A later source is used exactly when every earlier one gave neither metric and it
   * has one; the tag is "none" exactly when no source has a metric, and then so does the result.
   */
  function ChooseMetrics(out: OutputDir, parseFloat: string -> Option<real>): (m: Metrics)
    ensures m.source == NoSource <==> m.total.None? && m.perArea.None?
    ensures m.source == Sql <==> HasAny(SqlMetrics(out.sql, parseFloat))
    ensures m.source == Tab <==>
      !HasAny(SqlMetrics(out.sql, parseFloat)) && HasAny(TabularMetrics(out.tab, SafeFloatOf(parseFloat)))
    ensures m.source == Csv <==>
      !HasAny(SqlMetrics(out.sql, parseFloat)) && !HasAny(TabularMetrics(out.tab, SafeFloatOf(parseFloat)))
      && HasAny(TabularMetrics(out.csv, SafeFloatOf(parseFloat)))
    ensures m.source == Sql ==> (m.total, m.perArea) == SqlMetrics(out.sql, parseFloat)
    ensures m.source == Tab ==> (m.total, m.perArea) == TabularMetrics(out.tab, SafeFloatOf(parseFloat))
    ensures m.source == Csv ==> (m.total, m.perArea) == TabularMetrics(out.csv, SafeFloatOf(parseFloat))
  {
    var s := SqlMetrics(out.sql, parseFloat);
    var t := TabularMetrics(out.tab, SafeFloatOf(parseFloat));
    var c := TabularMetrics(out.csv, SafeFloatOf(parseFloat));
    if out.sql.Some? && HasAny(s) then Metrics(s.0, s.1, Sql)
    else if HasAny(t) then Metrics(t.0, t.1, Tab)
    else if HasAny(c) then Metrics(c.0, c.1, Csv)
    else Metrics(None, None, NoSource)
  }

  /** `fetch_metrics_any`. */
  method FetchMetricsAny(out: OutputDir, parseFloat: string -> Option<real>) returns (m: Metrics)
    ensures m == ChooseMetrics(out, parseFloat)
  {
    if out.sql.Some? {
      var p := SqlMetrics(out.sql, parseFloat);
      if p.0.Some? || p.1.Some? {
        return Metrics(p.0, p.1, Sql);
      }
    }
    var t, p := FetchFromTabularText(out.tab, SafeFloatOf(parseFloat));
    if t.Some? || p.Some? {
      return Metrics(t, p, Tab);
    }
    t, p := FetchFromTabularText(out.csv, SafeFloatOf(parseFloat));
    if t.Some? || p.Some? {
      return Metrics(t, p, Csv);
    }
    return Metrics(None, None, NoSource);
  }
}
