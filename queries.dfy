/**
 * The `pacientes` table's rows (schema at app.py:86-96) and the SELECTs run
 * against it, as functions of the rows they read: the history listing of
 * the main page (app.py:149-150) and the export query shared by the Excel
 * and PDF exports (app.py:165-174, repeated at app.py:195-204).
 */
module Queries {
  import opened Sorting

  /** The `momento` column: before or after treatment. */
  datatype Phase = PreTreatment | PostTreatment

  /**
   * One row of `pacientes`: id, nome, registro, data (the insertion time),
   * pressao_braco, pressao_tornozelo, itb, momento.
   */
  datatype Row = Row(id: int, name: string, record: string, date: int,
                     arm: real, ankle: real, itb: real, phase: Phase)

  /** The history projection `SELECT nome, registro, data, itb, momento`. */
  datatype Summary = Summary(name: string, record: string, date: int, itb: real, phase: Phase)

  function RowDate(r: Row): int { r.date }

  function SummaryDate(s: Summary): int { s.date }

  function Summarize(r: Row): Summary
  {
    Summary(r.name, r.record, r.date, r.itb, r.phase)
  }

  /** The projection of every row, in table order. */
  function Summaries(rows: seq<Row>): seq<Summary>
  {
    seq(|rows|, i requires 0 <= i < |rows| => Summarize(rows[i]))
  }

  /**
   * What `SELECT nome, registro, data, itb, momento FROM pacientes ORDER BY
   * data DESC` may return: every row's projection, once each, newest first.
   * Rows with equal dates may come in any order.
   */
  predicate IsHistoryOf(h: seq<Summary>, rows: seq<Row>)
  {
    multiset(h) == multiset(Summaries(rows)) && SortedBy(h, SummaryDate, Descending)
  }

  /** One history listing that the query may return. */
  function HistoryQuery(rows: seq<Row>): (h: seq<Summary>)
    ensures IsHistoryOf(h, rows)
  {
    Sort(Summaries(rows), SummaryDate, Descending)
  }

  /** `WHERE nome = ?`: the rows whose name equals `name` exactly, in table order. */
  function WithName(rows: seq<Row>, name: string): (m: seq<Row>)
    ensures forall r :: multiset(m)[r] == if r.name == name then multiset(rows)[r] else 0
  {
    if rows == [] then []
    else
      assert rows == [rows[0]] + rows[1..];
      (if rows[0].name == name then [rows[0]] else []) + WithName(rows[1..], name)
  }

  /** The outcome of an export request: the "no data" notice, or the rows of the file. */
  datatype Export = NoData | Table(rows: seq<Row>)

  /**
   * What the export query may produce for the `nome` argument `filter`. A
   * non-empty filter selects the rows whose name equals it, oldest first; an
   * empty one selects every row in no promised order. An empty selection is
   * the notice, never an empty file.
   */
  predicate IsExportOf(x: Export, rows: seq<Row>, filter: string)
  {
    var selected := if filter != [] then WithName(rows, filter) else rows;
    && (x.NoData? <==> selected == [])
    && (x.Table? ==> x.rows != [] && multiset(x.rows) == multiset(selected))
    && (x.Table? && filter != [] ==> SortedBy(x.rows, RowDate, Ascending))
  }

  /** One export that the query may produce; the unfiltered branch keeps table order. */
  function ExportQuery(rows: seq<Row>, filter: string): (x: Export)
    ensures IsExportOf(x, rows, filter)
  {
    var selected := if filter != [] then Sort(WithName(rows, filter), RowDate, Ascending) else rows;
    if selected == [] then
      assert |multiset(selected)| == 0;
      NoData
    else
      assert selected[0] in multiset(selected);
      Table(selected)
  }

  /** Two history listings of the same rows hold the same entries and list the same dates in the same order. */
  lemma HistoryDeterminedUpToTies(rows: seq<Row>, h1: seq<Summary>, h2: seq<Summary>)
    requires IsHistoryOf(h1, rows) && IsHistoryOf(h2, rows)
    ensures multiset(h1) == multiset(h2)
    ensures Keys(h1, SummaryDate) == Keys(h2, SummaryDate)
  {
    SortedPermutationsAgreeOnKeys(h1, h2, SummaryDate, Descending);
  }

  /** A row dated strictly after every other row heads the history listing. */
  lemma NewestRowListedFirst(rows: seq<Row>, r: Row, h: seq<Summary>)
    requires IsHistoryOf(h, rows + [r])
    requires forall y :: y in rows ==> y.date < r.date
    ensures h != [] && h[0] == Summarize(r)
  {
    var earlier := Summaries(rows);
    assert Summaries(rows + [r]) == earlier + [Summarize(r)];
    forall y | y in earlier
      ensures InOrder(SummaryDate(Summarize(r)), SummaryDate(y), Descending)
      ensures SummaryDate(Summarize(r)) != SummaryDate(y)
    {
      var i :| 0 <= i < |earlier| && earlier[i] == y;
      assert rows[i] in rows;
    }
    StrictExtremeFirst(h, earlier, Summarize(r), SummaryDate, Descending);
  }

  /** Every row of a filtered export is a row of the table with exactly the requested name. */
  lemma FilteredExportMatches(rows: seq<Row>, filter: string, x: Export)
    requires filter != [] && IsExportOf(x, rows, filter) && x.Table?
    ensures forall r :: r in x.rows ==> r in rows && r.name == filter
  {
    forall r | r in x.rows
      ensures r in rows && r.name == filter
    {
      assert multiset(x.rows)[r] > 0;
    }
  }

  /** Every row with the requested name is exported: the filter drops only other names. */
  lemma FilteredExportComplete(rows: seq<Row>, filter: string, x: Export)
    requires filter != [] && IsExportOf(x, rows, filter)
    ensures forall r :: r in rows && r.name == filter ==> x.Table? && r in x.rows
  {
    forall r | r in rows && r.name == filter
      ensures x.Table? && r in x.rows
    {
      assert multiset(rows)[r] > 0;
      var m := WithName(rows, filter);
      assert multiset(m)[r] > 0;
      assert r in m;
    }
  }
}
