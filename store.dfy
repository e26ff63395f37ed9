/**
 * The `pacientes` table as the request handlers use it: an append-only
 * sequence of rows with SQLite's AUTOINCREMENT counter. A successful form
 * submission appends one row (app.py:142-144); nothing updates or deletes a
 * row. The main page lists the history after handling its form
 * (app.py:114-150) and the exports read the rows selected by name
 * (app.py:165-174).
 */
module Store {
  import opened Wrappers
  import opened Text
  import opened Evaluator
  import opened Queries

  /**
   * The posted form of the main page. A text field the request lacks is
   * the empty text, as `request.form.get(..., '')` reads it; the phase
   * field has a default instead (app.py:119).
   */
  datatype Form = Form(name: string, record: string, arm: string, ankle: string, phase: Option<Phase>)

  function PhaseOrDefault(p: Option<Phase>): Phase
  {
    if p.Some? then p.value else PreTreatment
  }

  /** The row the INSERT of app.py:142-143 writes for an accepted form. */
  function NewRow(id: int, form: Form, now: int, e: Evaluation): Row
    requires e.Ok?
  {
    Row(id, Strip(form.name), Strip(form.record), now, e.arm, e.ankle, e.itb, PhaseOrDefault(form.phase))
  }

  /**
   * What every row written by a submission satisfies: a non-empty stripped
   * name, a stripped record, a non-zero arm pressure and itb = ankle / arm.
   */
  predicate WellFormed(r: Row)
  {
    && r.name != [] && IsStripped(r.name)
    && IsStripped(r.record)
    && r.arm != 0.0 && r.itb == r.ankle / r.arm
  }

  /** The row built from an accepted form is well formed. */
  lemma NewRowWellFormed(id: int, form: Form, now: int, parse: string -> Option<real>)
    requires Evaluate(form.name, form.arm, form.ankle, parse).Ok?
    ensures WellFormed(NewRow(id, form, now, Evaluate(form.name, form.arm, form.ankle, parse)))
  {
    var e := Evaluate(form.name, form.arm, form.ankle, parse);
    assert !IsBlank(form.name);
    var r := NewRow(id, form, now, e);
    assert r.name == Strip(form.name) != [];
    assert r.arm == e.arm && r.itb == e.itb && r.ankle == e.ankle;
  }

  /**
   * Stored names are stripped, but the export's `nome` argument is not
   * (app.py:159): a filter with leading or trailing white space matches
   * no row, and the export gives the "no data" notice.
   */
  lemma UnstrippedFilterExportsNothing(rows: seq<Row>, filter: string, x: Export)
    requires forall r :: r in rows ==> WellFormed(r)
    requires filter != [] && Strip(filter) != filter
    requires IsExportOf(x, rows, filter)
    ensures x == NoData
  {
    var m := WithName(rows, filter);
    forall r: Row
      ensures multiset(m)[r] == 0
    {
      if r.name == filter {
        StripFixesStripped(filter);
        assert r !in rows;
      }
    }
    assert multiset(m) == multiset{};
  }

  /**
   * The table invariant: ids are positive, strictly increase in insertion
   * order and stay below the next id; every row is well formed.
   */
  predicate ValidTable(rows: seq<Row>, nextId: int)
  {
    && 1 <= nextId
    && (forall i :: 0 <= i < |rows| ==> WellFormed(rows[i]) && 1 <= rows[i].id < nextId)
    && (forall i, j :: 0 <= i < j < |rows| ==> rows[i].id < rows[j].id)
  }

  /** Appending a well-formed row under the next id, then advancing the counter, keeps the invariant. */
  lemma AppendKeepsValid(rows: seq<Row>, nextId: int, row: Row)
    requires ValidTable(rows, nextId)
    requires WellFormed(row) && row.id == nextId
    ensures ValidTable(rows + [row], nextId + 1)
  {
    var rows' := rows + [row];
    forall i | 0 <= i < |rows'|
      ensures WellFormed(rows'[i]) && 1 <= rows'[i].id < nextId + 1
    {
      if i < |rows| { assert rows'[i] == rows[i]; }
    }
  }

  class PatientTable {
    /** The rows of `pacientes`, in insertion order. */
    var rows: seq<Row>
    /** The id AUTOINCREMENT gives the next row: above every id ever handed out. */
    var nextId: int

    ghost predicate Valid()
      reads this
    {
      ValidTable(rows, nextId)
    }

    /** A freshly created table: `CREATE TABLE IF NOT EXISTS` on a new database. */
    constructor ()
      ensures Valid()
      ensures rows == [] && nextId == 1
    {
      rows := [];
      nextId := 1;
    }

    /**
     * The POST branch of the main page (app.py:114-147): evaluate the form
     * and, only when it is accepted, append its row with the next id.
     * Rejected forms leave the table as it was.
     */
    method Submit(form: Form, now: int, parse: string -> Option<real>) returns (e: Evaluation)
      requires Valid()
      modifies this
      ensures Valid()
      ensures e == Evaluate(form.name, form.arm, form.ankle, parse)
      ensures e.Ok? ==> && rows == old(rows) + [NewRow(old(nextId), form, now, e)]
                        && nextId == old(nextId) + 1
                        && forall r :: r in old(rows) ==> r.id < old(nextId)
      ensures !e.Ok? ==> rows == old(rows) && nextId == old(nextId)
    {
      e := Evaluate(form.name, form.arm, form.ankle, parse);
      if e.Ok? {
        NewRowWellFormed(nextId, form, now, parse);
        AppendRow(NewRow(nextId, form, now, e));
      }
    }

    /**
     * The INSERT and commit of app.py:142-144: `row`, already carrying the
     * next id, becomes the last row and the counter moves past it.
     */
    method AppendRow(row: Row)
      requires Valid()
      requires WellFormed(row) && row.id == nextId
      modifies this
      ensures Valid()
      ensures rows == old(rows) + [row] && nextId == old(nextId) + 1
      ensures forall r :: r in old(rows) ==> r.id < row.id
    {
      AppendKeepsValid(rows, nextId, row);
      forall r | r in rows
        ensures r.id < row.id
      {
        var i :| 0 <= i < |rows| && rows[i] == r;
      }
      rows := rows + [row];
      nextId := nextId + 1;
    }

    /** The history listing of app.py:149-150: every row's projection, newest first. */
    method History() returns (h: seq<Summary>)
      ensures IsHistoryOf(h, rows)
    {
      h := HistoryQuery(rows);
    }

    /**
     * The query and empty check of the exports (app.py:165-174): the rows
     * named `filter` oldest first, or every row when `filter` is empty; the
     * "no data" notice when nothing is selected.
     */
    method ExportRows(filter: string) returns (x: Export)
      ensures IsExportOf(x, rows, filter)
    {
      x := ExportQuery(rows, filter);
    }

    /**
     * One request to the main page (app.py:114-150): a posted form is
     * submitted first, then the history is listed, so an accepted form's row
     * is already in it, and heads it when its date is later than all others.
     */
    method HandleIndex(post: Option<Form>, now: int, parse: string -> Option<real>)
      returns (outcome: Option<Evaluation>, h: seq<Summary>)
      requires Valid()
      modifies this
      ensures Valid()
      ensures post == None ==> outcome == None && rows == old(rows) && nextId == old(nextId)
      ensures post.Some? ==> outcome == Some(Evaluate(post.value.name, post.value.arm, post.value.ankle, parse))
      ensures post.Some? && outcome.value.Ok? ==>
                && rows == old(rows) + [NewRow(old(nextId), post.value, now, outcome.value)]
                && nextId == old(nextId) + 1
      ensures post.Some? && !outcome.value.Ok? ==> rows == old(rows) && nextId == old(nextId)
      ensures IsHistoryOf(h, rows)
      ensures post.Some? && outcome.value.Ok? && (forall r :: r in old(rows) ==> r.date < now) ==>
                h != [] && h[0] == Summarize(NewRow(old(nextId), post.value, now, outcome.value))
    {
      outcome := None;
      if post.Some? {
        var e := Submit(post.value, now, parse);
        outcome := Some(e);
      }
      h := History();
      if post.Some? && outcome.value.Ok? && forall r :: r in old(rows) ==> r.date < now {
        NewestRowListedFirst(old(rows), NewRow(old(nextId), post.value, now, outcome.value), h);
      }
    }
  }
}
