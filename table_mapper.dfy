/**
 * The schema migrator of Simple.MySql/Schema/TableMapper.cs. Tables are
 * registered one by one; a commit sends CREATE TABLE for each, and when the
 * table already exists adds every declared column the live table lacks with
 * one ALTER TABLE per column.
 *
 * The database is an oracle: what a statement returns depends only on the
 * statements sent before it, and so do the live column names of a table.
 * Column objects can be shared between tables, so the specification keeps
 * one state per column object (a map keyed by the object) rather than one
 * per position.
 */
module TableMapping {
  import opened Wrappers
  import opened Columns

  /** A registered table: its name and its column objects in declaration order. */
  datatype Table = Table(TableName: string, Columns: seq<Column>)

  /** What a commit reports for one table. */
  datatype TableCommitResult = TableCommitResult(TableName: string, WasTableCreated: bool, ColumnsAdded: seq<string>)

  /**
   * A statement sent to the database. CREATE TABLE carries the table name
   * and its columns as they stood when it was sent; ALTER TABLE carries its text.
   */
  datatype Statement = CreateTable(tableName: string, columns: seq<ColumnState>) | AlterTable(text: string)

  /** ExecuteNonQuery either returns an affected-row count or throws. */
  datatype Outcome = Returned(code: int) | Threw(message: string)

  /** Why a commit stopped: a column name ExportAddColumnAsStatement refused, or a database exception. */
  datatype CommitError = InvalidColumnName(column: string, reason: NameError) | DatabaseError(message: string)

  /** ConfigureTable before any Add has no table to configure. */
  datatype MapperError = NoTableRegistered

  /** The database connection as seen by the migrator. */
  class Database {
    /** The outcome of a statement, given the statements sent before it. */
    const respond: (seq<Statement>, Statement) -> Outcome
    /** The ColumnName column of GetTableSchema, given the statements sent so far. */
    const columnsOf: (seq<Statement>, string) -> seq<string>
    /** Every statement sent, in order. */
    var executed: seq<Statement>

    constructor (respond: (seq<Statement>, Statement) -> Outcome, columnsOf: (seq<Statement>, string) -> seq<string>)
      ensures this.respond == respond && this.columnsOf == columnsOf && executed == []
    {
      this.respond, this.columnsOf := respond, columnsOf;
      executed := [];
    }

    method ExecuteNonQuery(s: Statement) returns (o: Outcome)
      modifies this
      ensures executed == old(executed) + [s]
      ensures o == respond(old(executed), s)
    {
      o := respond(executed, s);
      executed := executed + [s];
    }

    method GetTableSchema(tableName: string) returns (names: seq<string>)
      ensures names == columnsOf(executed, tableName)
    {
      names := columnsOf(executed, tableName);
    }
  }

  /** The state of each column object the specification follows. */
  type States = map<Column, ColumnState>

  /** Every column object st follows is in the state st records for it. */
  predicate InStates(st: States)
    reads st.Keys
  {
    forall c :: c in st ==> st[c] == c.With(c.DefaultValue)
  }

  predicate Covers(st: States, cols: seq<Column>)
  {
    forall c :: c in cols ==> c in st
  }

  /** The states st records for cols, position by position. */
  function StatesOf(st: States, cols: seq<Column>): (r: seq<ColumnState>)
    requires Covers(st, cols)
    ensures |r| == |cols| && forall i :: 0 <= i < |cols| ==> r[i] == st[cols[i]]
  {
    if cols == [] then [] else [st[cols[0]]] + StatesOf(st, cols[1..])
  }

  /** The current states of cols, position by position. */
  function ColumnStates(cols: seq<Column>): (r: seq<ColumnState>)
    reads set c | c in cols
    ensures |r| == |cols| && forall i :: 0 <= i < |cols| ==> r[i] == cols[i].State()
  {
    if cols == [] then [] else [cols[0].State()] + ColumnStates(cols[1..])
  }

  /** The declared columns whose names are not live, in declared order. */
  function Missing(cols: seq<Column>, live: seq<string>): (r: seq<Column>)
    ensures forall c :: c in r ==> c in cols && c.ColumnName !in live
    ensures forall c :: c in cols && c.ColumnName !in live ==> c in r
    ensures |r| <= |cols|
  {
    if cols == [] then []
    else if cols[0].ColumnName in live then Missing(cols[1..], live)
    else [cols[0]] + Missing(cols[1..], live)
  }

  /** A single declared column is missing exactly when its name is not live. */
  lemma MissingOne(c: Column, live: seq<string>)
    ensures Missing([c], live) == if c.ColumnName in live then [] else [c]
  {
    assert [c][1..] == [];
  }

  /**
   * The diff is a filter: it keeps the declared order and every occurrence,
   * so the missing columns of a + b are those of a followed by those of b.
   */
  lemma {:induction false} MissingConcat(a: seq<Column>, b: seq<Column>, live: seq<string>)
    ensures Missing(a + b, live) == Missing(a, live) + Missing(b, live)
  {
    if a == [] {
      assert a + b == b;
    } else {
      assert (a + b)[0] == a[0] && (a + b)[1..] == a[1..] + b;
      MissingConcat(a[1..], b, live);
    }
  }

  function Names(cols: seq<Column>): (r: seq<string>)
    ensures |r| == |cols| && forall i :: 0 <= i < |cols| ==> r[i] == cols[i].ColumnName
  {
    if cols == [] then [] else [cols[0].ColumnName] + Names(cols[1..])
  }

  /** The ALTER TABLE text for one column; the ADD COLUMN text brings its own leading space. */
  function AlterText(tableName: string, c: ColumnState): string
  {
    "ALTER TABLE " + tableName + " " + AddColumnText(c)
  }

  /** Where a commit stands: statements sent, column states, and the error that stopped it, if any. */
  datatype Progress = Progress(history: seq<Statement>, states: States, error: Option<CommitError>)

  /** One pass of the ALTER loop: export the column (which may fill in its default), then send ALTER TABLE. */
  function AlterOne(respond: (seq<Statement>, Statement) -> Outcome, p: Progress, tableName: string, c: Column): (r: Progress)
    requires c in p.states
    ensures c in r.states && r.states == p.states[c := r.states[c]]
  {
    var s := p.states[c];
    match CheckColumnName(s.ColumnName)
    case Some(e) => p.(error := Some(InvalidColumnName(s.ColumnName, e)))
    case None =>
      var s' := WithReasonableDefault(s);
      var stmt := AlterTable(AlterText(tableName, s'));
      var err := match respond(p.history, stmt)
        case Threw(m) => Some(DatabaseError(m))
        case Returned(_) => None;
      Progress(p.history + [stmt], p.states[c := s'], err)
  }

  /** The ALTER loop over cols, stopping at the first error. */
  function AlterAll(respond: (seq<Statement>, Statement) -> Outcome, p: Progress, tableName: string, cols: seq<Column>): (r: Progress)
    requires Covers(p.states, cols)
    ensures r.states.Keys == p.states.Keys
    decreases |cols|
  {
    if cols == [] then p
    else
      var q := AlterAll(respond, p, tableName, cols[..|cols| - 1]);
      if q.error.Some? then q else AlterOne(respond, q, tableName, cols[|cols| - 1])
  }

  /** What commitTable does to the progress, and the result it records. */
  datatype TableStep = TableStep(progress: Progress, result: Option<TableCommitResult>)

  /**
   * commitTable: send CREATE TABLE. A return of 0 means the table was
   * created; -1 means it existed, so every declared column the live table
   * lacks is added; any other return records nothing.
   */
  function CommitTableSpec(respond: (seq<Statement>, Statement) -> Outcome, columnsOf: (seq<Statement>, string) -> seq<string>,
                           p: Progress, t: Table): (r: TableStep)
    requires Covers(p.states, t.Columns)
    ensures r.progress.states.Keys == p.states.Keys
    ensures r.progress.error.Some? ==> r.result.None?
  {
    var create := CreateTable(t.TableName, StatesOf(p.states, t.Columns));
    var h := p.history + [create];
    match respond(p.history, create)
    case Threw(m) => TableStep(Progress(h, p.states, Some(DatabaseError(m))), None)
    case Returned(code) =>
      if code == 0 then
        TableStep(Progress(h, p.states, None), Some(TableCommitResult(t.TableName, true, [])))
      else if code == -1 then
        var missing := Missing(t.Columns, columnsOf(h, t.TableName));
        var q := AlterAll(respond, Progress(h, p.states, None), t.TableName, missing);
        TableStep(q, if q.error.None? && |missing| > 0 then Some(TableCommitResult(t.TableName, false, Names(missing))) else None)
      else
        TableStep(Progress(h, p.states, None), None)
  }

  /** Every column object of every table. */
  function AllColumns(ts: seq<Table>): set<Column>
  {
    set t, c | t in ts && c in t.Columns :: c
  }

  predicate CoversAll(st: States, ts: seq<Table>)
  {
    forall t :: t in ts ==> Covers(st, t.Columns)
  }

  /** A commit's progress and the results recorded so far. */
  datatype CommitState = CommitState(progress: Progress, results: seq<TableCommitResult>)

  /** Commit over the tables ts in order, stopping at the first error and keeping the non-null results. */
  function CommitAll(respond: (seq<Statement>, Statement) -> Outcome, columnsOf: (seq<Statement>, string) -> seq<string>,
                     p: Progress, ts: seq<Table>): (r: CommitState)
    requires p.error.None? && CoversAll(p.states, ts)
    ensures r.progress.states.Keys == p.states.Keys
    decreases |ts|
  {
    if ts == [] then CommitState(p, [])
    else
      var s := CommitAll(respond, columnsOf, p, ts[..|ts| - 1]);
      if s.progress.error.Some? then s
      else
        var step := CommitTableSpec(respond, columnsOf, s.progress, ts[|ts| - 1]);
        CommitState(step.progress, s.results + (if step.result.Some? then [step.result.value] else []))
  }

  /** The current state of every column object of ts. */
  function Snapshot(ts: seq<Table>): (st: States)
    reads AllColumns(ts)
    ensures CoversAll(st, ts)
    ensures forall c :: c in st ==> c in AllColumns(ts) && st[c] == c.State()
  {
    map c | c in AllColumns(ts) :: c.State()
  }

  lemma AlterAllStep(respond: (seq<Statement>, Statement) -> Outcome, p: Progress, tableName: string, cols: seq<Column>, i: nat)
    requires Covers(p.states, cols) && i < |cols|
    requires AlterAll(respond, p, tableName, cols[..i]).error.None?
    ensures AlterAll(respond, p, tableName, cols[..i + 1]) == AlterOne(respond, AlterAll(respond, p, tableName, cols[..i]), tableName, cols[i])
  {
    assert cols[..i + 1][..i] == cols[..i];
  }

  /** Once the ALTER loop has stopped on an error, the remaining columns change nothing. */
  lemma {:induction false} AlterAllStops(respond: (seq<Statement>, Statement) -> Outcome, p: Progress, tableName: string,
                                         cols: seq<Column>, k: nat)
    requires Covers(p.states, cols) && k <= |cols|
    requires AlterAll(respond, p, tableName, cols[..k]).error.Some?
    ensures AlterAll(respond, p, tableName, cols) == AlterAll(respond, p, tableName, cols[..k])
    decreases |cols| - k
  {
    if k < |cols| {
      var init := cols[..|cols| - 1];
      assert init[..k] == cols[..k];
      AlterAllStops(respond, p, tableName, init, k);
    } else {
      assert cols[..k] == cols;
    }
  }

  lemma CommitAllStep(respond: (seq<Statement>, Statement) -> Outcome, columnsOf: (seq<Statement>, string) -> seq<string>,
                      p: Progress, ts: seq<Table>, i: nat)
    requires p.error.None? && CoversAll(p.states, ts) && i < |ts|
    requires CommitAll(respond, columnsOf, p, ts[..i]).progress.error.None?
    ensures var s := CommitAll(respond, columnsOf, p, ts[..i]);
      var step := CommitTableSpec(respond, columnsOf, s.progress, ts[i]);
      CommitAll(respond, columnsOf, p, ts[..i + 1])
        == CommitState(step.progress, s.results + (if step.result.Some? then [step.result.value] else []))
  {
    assert ts[..i + 1][..i] == ts[..i];
  }

  /** The loop step of Commit: one more table's outcome, as the method observes it, extends the fold. */
  lemma CommitAllNext(respond: (seq<Statement>, Statement) -> Outcome, columnsOf: (seq<Statement>, string) -> seq<string>,
                      p: Progress, ts: seq<Table>, i: nat, s: CommitState, r: Result<Option<TableCommitResult>, CommitError>)
    requires p.error.None? && CoversAll(p.states, ts) && i < |ts|
    requires CommitAll(respond, columnsOf, p, ts[..i]) == s && s.progress.error.None?
    requires var step := CommitTableSpec(respond, columnsOf, s.progress, ts[i]);
      r == (if step.progress.error.Some? then Failure(step.progress.error.value) else Success(step.result))
    ensures var step := CommitTableSpec(respond, columnsOf, s.progress, ts[i]);
      CommitAll(respond, columnsOf, p, ts[..i + 1])
        == CommitState(step.progress.(error := if r.Failure? then Some(r.error) else None),
                       s.results + (if r.Success? && r.value.Some? then [r.value.value] else []))
  {
    CommitAllStep(respond, columnsOf, p, ts, i);
    ObservedStep(CommitTableSpec(respond, columnsOf, s.progress, ts[i]), s.results, r);
  }

  /** The outcome commitTable reports determines the step it took. */
  lemma ObservedStep(step: TableStep, results: seq<TableCommitResult>, r: Result<Option<TableCommitResult>, CommitError>)
    requires step.progress.error.Some? ==> step.result.None?
    requires r == (if step.progress.error.Some? then Failure(step.progress.error.value) else Success(step.result))
    ensures CommitState(step.progress, results + (if step.result.Some? then [step.result.value] else []))
         == CommitState(step.progress.(error := if r.Failure? then Some(r.error) else None),
                        results + (if r.Success? && r.value.Some? then [r.value.value] else []))
  {
  }

  /** Once a commit has stopped on an error, the remaining tables change nothing. */
  lemma {:induction false} CommitAllStops(respond: (seq<Statement>, Statement) -> Outcome, columnsOf: (seq<Statement>, string) -> seq<string>,
                                          p: Progress, ts: seq<Table>, k: nat)
    requires p.error.None? && CoversAll(p.states, ts) && k <= |ts|
    requires CommitAll(respond, columnsOf, p, ts[..k]).progress.error.Some?
    ensures CommitAll(respond, columnsOf, p, ts) == CommitAll(respond, columnsOf, p, ts[..k])
    decreases |ts| - k
  {
    if k < |ts| {
      var init := ts[..|ts| - 1];
      assert init[..k] == ts[..k];
      CommitAllStops(respond, columnsOf, p, init, k);
    } else {
      assert ts[..k] == ts;
    }
  }

  /** TableMapper: the backlog of tables waiting for a commit. */
  class TableMapper {
    const db: Database
    var tables: seq<Table>

    constructor (db: Database)
      ensures this.db == db && tables == []
    {
      this.db := db;
      tables := [];
    }

    /** Add: one table, built from a record type, goes to the end of the backlog. */
    method Add(t: Table) returns (self: TableMapper)
      modifies this
      ensures tables == old(tables) + [t]
      ensures self == this
    {
      tables := tables + [t];
      self := this;
    }

    /** ConfigureTable: the options act on the last registered table only. */
    method ConfigureTable(options: Table -> Table) returns (r: Result<TableMapper, MapperError>)
      modifies this
      ensures old(tables) == [] ==> r == Failure(NoTableRegistered) && tables == old(tables)
      ensures old(tables) != [] ==>
        && r == Success(this)
        && tables == old(tables)[..|old(tables)| - 1] + [options(old(tables)[|old(tables)| - 1])]
    {
      if |tables| == 0 {
        return Failure(NoTableRegistered);
      }
      tables := tables[..|tables| - 1] + [options(tables[|tables| - 1])];
      return Success(this);
    }

    /**
     * Commit: commitTable for each table in registration order, keeping the
     * non-null results, then the backlog is emptied. An exception ends the
     * commit with the backlog in place.
     */
    method Commit() returns (r: Result<seq<TableCommitResult>, CommitError>)
      modifies this, db, AllColumns(tables)
      ensures var final := CommitAll(db.respond, db.columnsOf, Progress(old(db.executed), old(Snapshot(tables)), None), old(tables));
        && db.executed == final.progress.history
        && InStates(final.progress.states)
        && (final.progress.error.None? ==> r == Success(final.results) && tables == [])
        && (final.progress.error.Some? ==> r == Failure(final.progress.error.value) && tables == old(tables))
    {
      ghost var st0 := Snapshot(tables);
      ghost var start := Progress(db.executed, st0, None);
      ghost var cur := st0;
      var err: Option<CommitError> := None;
      var results: seq<TableCommitResult> := [];
      var i := 0;
      while i < |tables| && err.None?
        invariant 0 <= i <= |tables|
        invariant tables == old(tables)
        invariant CommitAll(db.respond, db.columnsOf, start, tables[..i]) == CommitState(Progress(db.executed, cur, err), results)
        invariant cur.Keys == st0.Keys
        invariant InStates(cur)
      {
        var t := tables[i];
        ghost var before := CommitState(Progress(db.executed, cur, None), results);
        ghost var step := CommitTableSpec(db.respond, db.columnsOf, before.progress, t);
        var tResult := CommitTable(t, cur);
        CommitAllNext(db.respond, db.columnsOf, start, tables, i, before, tResult);
        cur := step.progress.states;
        if tResult.Failure? {
          err := Some(tResult.error);
        } else if tResult.value.Some? {
          results := results + [tResult.value.value];
        }
        i := i + 1;
      }
      if err.Some? {
        CommitAllStops(db.respond, db.columnsOf, start, tables, i);
        return Failure(err.value);
      }
      assert tables[..i] == tables;
      tables := [];
      return Success(results);
    }

    /** commitTable: CREATE TABLE, then on -1 one ALTER TABLE per missing column. */
    method CommitTable(t: Table, ghost st: States) returns (r: Result<Option<TableCommitResult>, CommitError>)
      requires Covers(st, t.Columns)
      requires InStates(st)
      modifies db, set c | c in t.Columns
      ensures var step := CommitTableSpec(db.respond, db.columnsOf, Progress(old(db.executed), st, None), t);
        && db.executed == step.progress.history
        && InStates(step.progress.states)
        && r == (if step.progress.error.Some? then Failure(step.progress.error.value) else Success(step.result))
    {
      ghost var spec := CommitTableSpec(db.respond, db.columnsOf, Progress(db.executed, st, None), t);
      var columns := ColumnStates(t.Columns);
      assert columns == StatesOf(st, t.Columns);
      var val := db.ExecuteNonQuery(CreateTable(t.TableName, columns));
      if val.Threw? {
        assert spec.progress == Progress(db.executed, st, Some(DatabaseError(val.message)));
        return Failure(DatabaseError(val.message));
      }
      if val.code == 0 {
        assert spec == TableStep(Progress(db.executed, st, None), Some(TableCommitResult(t.TableName, true, [])));
        return Success(Some(TableCommitResult(t.TableName, true, [])));
      }
      if val.code == -1 {
        var dbColumns := db.GetTableSchema(t.TableName);
        var newColumns := Missing(t.Columns, dbColumns);
        ghost var alters := AlterAll(db.respond, Progress(db.executed, st, None), t.TableName, newColumns);
        assert spec.progress == alters;
        var added := AddColumns(t.TableName, newColumns, st);
        if added.Some? {
          return Failure(added.value);
        }
        if |newColumns| > 0 {
          return Success(Some(TableCommitResult(t.TableName, false, Names(newColumns))));
        }
        return Success(None);
      }
      assert spec == TableStep(Progress(db.executed, st, None), None);
      return Success(None);
    }

    /** The foreach of commitTable: export each missing column and send its ALTER TABLE, stopping at an exception. */
    method AddColumns(tableName: string, newColumns: seq<Column>, ghost st: States) returns (err: Option<CommitError>)
      requires Covers(st, newColumns)
      requires InStates(st)
      modifies db, set c | c in newColumns
      ensures var q := AlterAll(db.respond, Progress(old(db.executed), st, None), tableName, newColumns);
        && db.executed == q.history
        && InStates(q.states)
        && err == q.error
    {
      ghost var start := Progress(db.executed, st, None);
      ghost var q := start;
      err := None;
      var i := 0;
      while i < |newColumns| && err.None?
        invariant 0 <= i <= |newColumns|
        invariant q == AlterAll(db.respond, start, tableName, newColumns[..i])
        invariant db.executed == q.history && err == q.error
        invariant InStates(q.states)
      {
        AlterAllStep(db.respond, start, tableName, newColumns, i);
        err := AddColumn(tableName, newColumns[i], q);
        q := AlterOne(db.respond, q, tableName, newColumns[i]);
        i := i + 1;
      }
      if err.Some? {
        AlterAllStops(db.respond, start, tableName, newColumns, i);
      } else {
        assert newColumns[..i] == newColumns;
      }
    }

    /** One pass of the foreach: export the column, then send its ALTER TABLE. */
    method AddColumn(tableName: string, c: Column, ghost q: Progress) returns (err: Option<CommitError>)
      requires c in q.states && c.State() == q.states[c]
      requires db.executed == q.history
      modifies db, c
      ensures var next := AlterOne(db.respond, q, tableName, c);
        && db.executed == next.history && c.State() == next.states[c] && err == next.error
    {
      var addColumn := c.ExportAddColumnAsStatement();
      if addColumn.Failure? {
        return Some(InvalidColumnName(c.ColumnName, addColumn.error));
      }
      var o := db.ExecuteNonQuery(AlterTable("ALTER TABLE " + tableName + " " + addColumn.value));
      if o.Threw? {
        return Some(DatabaseError(o.message));
      }
      return None;
    }
  }
}
