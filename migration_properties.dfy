/**
 * What a commit does to the database, stated over the specification of
 * TableMapping: the exact ALTER TABLE statements an existing table gets,
 * the shape of each table's result, and that committing tables the
 * database already holds in full changes nothing but the CREATE attempts.
 */
module MigrationProperties {
  import opened Wrappers
  import opened Columns
  import opened TableMapping

  /** One ALTER TABLE per column of cols, in order, each column with its default settled. */
  function AlterStatements(tableName: string, st: States, cols: seq<Column>): (r: seq<Statement>)
    requires Covers(st, cols)
    ensures |r| == |cols|
    decreases |cols|
  {
    if cols == [] then []
    else AlterStatements(tableName, st, cols[..|cols| - 1]) + [AlterTable(AlterText(tableName, WithReasonableDefault(st[cols[|cols| - 1]])))]
  }

  /** The CREATE TABLE statement of each table of ts, in order. */
  function CreateStatements(st: States, ts: seq<Table>): (r: seq<Statement>)
    requires CoversAll(st, ts)
    ensures |r| == |ts|
    decreases |ts|
  {
    if ts == [] then []
    else CreateStatements(st, ts[..|ts| - 1]) + [CreateTable(ts[|ts| - 1].TableName, StatesOf(st, ts[|ts| - 1].Columns))]
  }

  /** The state of c after the ALTER loop over cols: settled when c is one of them, untouched otherwise. */
  function Settled(st: States, cols: seq<Column>, c: Column): ColumnState
    requires c in st
  {
    if c in cols then WithReasonableDefault(st[c]) else st[c]
  }

  /**
   * One pass of the ALTER loop that ends without an error: the column has a
   * valid name and joins the settled columns. Settling twice is settling
   * once, so a column object met a second time stays as it was.
   */
  lemma SettleOne(respond: (seq<Statement>, Statement) -> Outcome, q: Progress, tableName: string, c: Column,
                  st: States, init: seq<Column>)
    requires c in st && Covers(st, init)
    requires q.error.None? && c in q.states
    requires forall d :: d in q.states ==> d in st && q.states[d] == Settled(st, init, d)
    requires AlterOne(respond, q, tableName, c).error.None?
    ensures var r := AlterOne(respond, q, tableName, c);
      && (forall d :: d in r.states ==> d in st && r.states[d] == Settled(st, init + [c], d))
      && CheckColumnName(st[c].ColumnName).None?
  {
    AddColumnExportIsStable(st[c]);
    assert forall d :: d in init + [c] <==> d in init || d == c;
  }

  /**
   * An ALTER loop that ends without an error started without one, met only
   * valid column names, and leaves every column it visited with its default
   * settled and every other column untouched.
   */
  lemma {:induction false} AlterAllSettles(respond: (seq<Statement>, Statement) -> Outcome, p: Progress,
                                           tableName: string, cols: seq<Column>)
    requires Covers(p.states, cols)
    requires AlterAll(respond, p, tableName, cols).error.None?
    ensures var r := AlterAll(respond, p, tableName, cols);
      && p.error.None?
      && (forall c :: c in r.states ==> c in p.states && r.states[c] == Settled(p.states, cols, c))
      && (forall c :: c in cols ==> CheckColumnName(p.states[c].ColumnName).None?)
    decreases |cols|
  {
    if cols != [] {
      var init, c := cols[..|cols| - 1], cols[|cols| - 1];
      assert init + [c] == cols;
      var q := AlterAll(respond, p, tableName, init);
      AlterAllSettles(respond, p, tableName, init);
      SettleOne(respond, q, tableName, c, p.states, init);
    }
  }

  /** A pass of the ALTER loop that ends without an error sends the column's ALTER TABLE with its default settled. */
  lemma AlterOneHistory(respond: (seq<Statement>, Statement) -> Outcome, q: Progress, tableName: string, c: Column)
    requires c in q.states
    requires AlterOne(respond, q, tableName, c).error.None?
    ensures AlterOne(respond, q, tableName, c).history == q.history + [AlterTable(AlterText(tableName, WithReasonableDefault(q.states[c])))]
  {
  }

  /**
   * An ALTER loop that ends without an error sent exactly one ALTER TABLE
   * per column, in order, each rendering the column with its default
   * settled. A column object listed twice is exported twice, and its second
   * export renders the same text.
   */
  lemma {:induction false} AlterAllHistory(respond: (seq<Statement>, Statement) -> Outcome, p: Progress,
                                           tableName: string, cols: seq<Column>)
    requires Covers(p.states, cols)
    requires AlterAll(respond, p, tableName, cols).error.None?
    ensures AlterAll(respond, p, tableName, cols).history == p.history + AlterStatements(tableName, p.states, cols)
    decreases |cols|
  {
    if cols != [] {
      var init, c := cols[..|cols| - 1], cols[|cols| - 1];
      var q := AlterAll(respond, p, tableName, init);
      AlterAllSettles(respond, p, tableName, init);
      AlterAllHistory(respond, p, tableName, init);
      AddColumnExportIsStable(p.states[c]);
      assert WithReasonableDefault(q.states[c]) == WithReasonableDefault(p.states[c]);
      AlterOneHistory(respond, q, tableName, c);
      var alters, alter := AlterStatements(tableName, p.states, init), AlterTable(AlterText(tableName, WithReasonableDefault(p.states[c])));
      assert p.history + (alters + [alter]) == p.history + alters + [alter];
    }
  }

  /** Declared columns whose names are all live leave nothing to add. */
  lemma MissingNone(cols: seq<Column>, live: seq<string>)
    requires forall c :: c in cols ==> c.ColumnName in live
    ensures Missing(cols, live) == []
  {
  }

  /**
   * Once the names of the missing columns are live, schema reconciliation
   * proposes nothing more: running it again after the ALTERs adds no column.
   */
  lemma MissingAfterAdding(cols: seq<Column>, live: seq<string>)
    ensures Missing(cols, live + Names(Missing(cols, live))) == []
  {
    var m := Missing(cols, live);
    var names := Names(m);
    forall c | c in cols
      ensures c.ColumnName in live + names
    {
      if c.ColumnName !in live {
        var i :| 0 <= i < |m| && m[i] == c;
        assert names[i] == c.ColumnName;
      }
    }
    MissingNone(cols, live + names);
  }

  /**
   * The CREATE TABLE outcomes other than -1 send nothing after the CREATE
   * and change no column: 0 records a created table with no added columns,
   * an exception stops the commit, any other count records nothing.
   */
  lemma CreateOutcomes(respond: (seq<Statement>, Statement) -> Outcome, columnsOf: (seq<Statement>, string) -> seq<string>,
                       p: Progress, t: Table)
    requires Covers(p.states, t.Columns)
    ensures var create := CreateTable(t.TableName, StatesOf(p.states, t.Columns));
      var o := respond(p.history, create);
      var step := CommitTableSpec(respond, columnsOf, p, t);
      && (o == Returned(0) ==>
            step == TableStep(Progress(p.history + [create], p.states, None), Some(TableCommitResult(t.TableName, true, []))))
      && (o.Threw? ==>
            step == TableStep(Progress(p.history + [create], p.states, Some(DatabaseError(o.message))), None))
      && (o.Returned? && o.code != 0 && o.code != -1 ==>
            step == TableStep(Progress(p.history + [create], p.states, None), None))
  {
  }

  /**
   * A table the database reports as existing (-1) and that commits without
   * an error: CREATE TABLE, then exactly the ALTER TABLE statements of its
   * missing columns in declared order; the result lists their names, and
   * there is no result when nothing was missing.
   */
  lemma ExistingTableEffect(respond: (seq<Statement>, Statement) -> Outcome, columnsOf: (seq<Statement>, string) -> seq<string>,
                            p: Progress, t: Table)
    requires Covers(p.states, t.Columns)
    requires respond(p.history, CreateTable(t.TableName, StatesOf(p.states, t.Columns))) == Returned(-1)
    requires CommitTableSpec(respond, columnsOf, p, t).progress.error.None?
    ensures var h := p.history + [CreateTable(t.TableName, StatesOf(p.states, t.Columns))];
      var missing := Missing(t.Columns, columnsOf(h, t.TableName));
      var step := CommitTableSpec(respond, columnsOf, p, t);
      && step.progress.history == h + AlterStatements(t.TableName, p.states, missing)
      && (forall c :: c in step.progress.states ==> step.progress.states[c] == Settled(p.states, missing, c))
      && step.result == (if missing == [] then None else Some(TableCommitResult(t.TableName, false, Names(missing))))
  {
    var h := p.history + [CreateTable(t.TableName, StatesOf(p.states, t.Columns))];
    var missing := Missing(t.Columns, columnsOf(h, t.TableName));
    AlterAllSettles(respond, Progress(h, p.states, None), t.TableName, missing);
    AlterAllHistory(respond, Progress(h, p.states, None), t.TableName, missing);
  }

  /**
   * A table that exists with every declared column live is left alone: only
   * its CREATE TABLE is sent, no column changes and no result is recorded.
   */
  lemma TableAlreadyCurrent(respond: (seq<Statement>, Statement) -> Outcome, columnsOf: (seq<Statement>, string) -> seq<string>,
                            p: Progress, t: Table)
    requires Covers(p.states, t.Columns)
    requires respond(p.history, CreateTable(t.TableName, StatesOf(p.states, t.Columns))) == Returned(-1)
    requires forall c :: c in t.Columns ==>
      c.ColumnName in columnsOf(p.history + [CreateTable(t.TableName, StatesOf(p.states, t.Columns))], t.TableName)
    ensures CommitTableSpec(respond, columnsOf, p, t)
         == TableStep(Progress(p.history + [CreateTable(t.TableName, StatesOf(p.states, t.Columns))], p.states, None), None)
  {
    var h := p.history + [CreateTable(t.TableName, StatesOf(p.states, t.Columns))];
    MissingNone(t.Columns, columnsOf(h, t.TableName));
  }

  /**
   * What a table's result says: it names the table; it reports creation
   * exactly when it lists no added column; an added column is a declared
   * column whose name the live table lacked.
   */
  lemma CommitTableResult(respond: (seq<Statement>, Statement) -> Outcome, columnsOf: (seq<Statement>, string) -> seq<string>,
                          p: Progress, t: Table)
    requires Covers(p.states, t.Columns)
    ensures var step := CommitTableSpec(respond, columnsOf, p, t);
      var live := columnsOf(p.history + [CreateTable(t.TableName, StatesOf(p.states, t.Columns))], t.TableName);
      step.result.Some? ==>
        && step.result.value.TableName == t.TableName
        && (step.result.value.WasTableCreated <==> step.result.value.ColumnsAdded == [])
        && |step.result.value.ColumnsAdded| <= |t.Columns|
        && (forall i :: 0 <= i < |step.result.value.ColumnsAdded| ==>
              step.result.value.ColumnsAdded[i] !in live
              && exists c :: c in t.Columns && c.ColumnName == step.result.value.ColumnsAdded[i])
  {
    var step := CommitTableSpec(respond, columnsOf, p, t);
    var h := p.history + [CreateTable(t.TableName, StatesOf(p.states, t.Columns))];
    var missing := Missing(t.Columns, columnsOf(h, t.TableName));
    if step.result.Some? && !step.result.value.WasTableCreated {
      assert step.result.value.ColumnsAdded == Names(missing);
      forall i | 0 <= i < |missing|
        ensures Names(missing)[i] !in columnsOf(h, t.TableName)
        ensures exists c :: c in t.Columns && c.ColumnName == Names(missing)[i]
      {
        assert missing[i] in missing;
      }
    }
  }

  /**
   * The results are in registration order, at most one per table: result k
   * names table idx[k], and the indices strictly increase.
   */
  predicate ResultsInOrder(results: seq<TableCommitResult>, ts: seq<Table>, idx: seq<nat>)
  {
    && |idx| == |results|
    && (forall k :: 0 <= k < |idx| ==> idx[k] < |ts| && results[k].TableName == ts[idx[k]].TableName)
    && (forall k, l :: 0 <= k < l < |idx| ==> idx[k] < idx[l])
  }

  /** Results in order over the first n tables stay in order over all of them, below index n. */
  lemma ResultsInOrderWiden(results: seq<TableCommitResult>, ts: seq<Table>, n: nat, idx: seq<nat>)
    requires n <= |ts| && ResultsInOrder(results, ts[..n], idx)
    ensures ResultsInOrder(results, ts, idx)
    ensures forall k :: 0 <= k < |idx| ==> idx[k] < n
  {
    forall k | 0 <= k < |idx|
      ensures results[k].TableName == ts[idx[k]].TableName
    {
      assert ts[..n][idx[k]] == ts[idx[k]];
    }
  }

  /** A result for a table after all those already recorded keeps the results in order. */
  lemma ResultsInOrderSnoc(results: seq<TableCommitResult>, ts: seq<Table>, idx: seq<nat>, res: TableCommitResult, n: nat)
    requires ResultsInOrder(results, ts, idx)
    requires n < |ts| && res.TableName == ts[n].TableName
    requires forall k :: 0 <= k < |idx| ==> idx[k] < n
    ensures ResultsInOrder(results + [res], ts, idx + [n])
  {
    var rs, ix := results + [res], idx + [n];
    forall k | 0 <= k < |ix|
      ensures ix[k] < |ts| && rs[k].TableName == ts[ix[k]].TableName
    {
      if k < |idx| {
        assert ix[k] == idx[k] && rs[k] == results[k];
      }
    }
  }

  /**
   * A commit records at most one result per table, in registration order,
   * each naming the table it was recorded for.
   */
  lemma {:induction false} CommitAllResults(respond: (seq<Statement>, Statement) -> Outcome, columnsOf: (seq<Statement>, string) -> seq<string>,
                                            p: Progress, ts: seq<Table>) returns (idx: seq<nat>)
    requires p.error.None? && CoversAll(p.states, ts)
    ensures var r := CommitAll(respond, columnsOf, p, ts);
      && |r.results| <= |ts|
      && ResultsInOrder(r.results, ts, idx)
    decreases |ts|
  {
    var r := CommitAll(respond, columnsOf, p, ts);
    if ts == [] {
      idx := [];
    } else {
      var n := |ts| - 1;
      var init := ts[..n];
      assert forall u :: u in init ==> u in ts;
      var before := CommitAllResults(respond, columnsOf, p, init);
      var s := CommitAll(respond, columnsOf, p, init);
      CommitAllLastResult(respond, columnsOf, p, ts);
      idx := ResultsExtend(s.results, r.results, ts, before);
    }
  }

  /** Results in order over all tables but the last, plus at most one result for the last, are in order. */
  lemma ResultsExtend(before: seq<TableCommitResult>, after: seq<TableCommitResult>, ts: seq<Table>, idx: seq<nat>)
    returns (idx': seq<nat>)
    requires ts != [] && |before| <= |ts| - 1 && ResultsInOrder(before, ts[..|ts| - 1], idx)
    requires || after == before
             || (&& after != []
                 && after == before + [after[|after| - 1]]
                 && after[|after| - 1].TableName == ts[|ts| - 1].TableName)
    ensures |after| <= |ts|
    ensures ResultsInOrder(after, ts, idx')
  {
    var n := |ts| - 1;
    ResultsInOrderWiden(before, ts, n, idx);
    if after != before {
      ResultsInOrderSnoc(before, ts, idx, after[|after| - 1], n);
      idx' := idx + [n];
    } else {
      idx' := idx;
    }
  }

  /** The last table of a commit adds at most one result, naming that table. */
  lemma CommitAllLastResult(respond: (seq<Statement>, Statement) -> Outcome, columnsOf: (seq<Statement>, string) -> seq<string>,
                            p: Progress, ts: seq<Table>)
    requires p.error.None? && CoversAll(p.states, ts) && ts != []
    ensures var s := CommitAll(respond, columnsOf, p, ts[..|ts| - 1]);
      var r := CommitAll(respond, columnsOf, p, ts);
      || r.results == s.results
      || (&& r.results != []
          && r.results == s.results + [r.results[|r.results| - 1]]
          && r.results[|r.results| - 1].TableName == ts[|ts| - 1].TableName)
  {
    var s := CommitAll(respond, columnsOf, p, ts[..|ts| - 1]);
    if s.progress.error.None? {
      CommitTableResult(respond, columnsOf, s.progress, ts[|ts| - 1]);
    }
  }

  /** One more table the database already holds in full extends a quiet commit by its CREATE TABLE alone. */
  lemma QuietStep(respond: (seq<Statement>, Statement) -> Outcome, columnsOf: (seq<Statement>, string) -> seq<string>,
                  p: Progress, ts: seq<Table>, t: Table, h: seq<Statement>)
    requires p.error.None? && CoversAll(p.states, ts + [t])
    requires forall h: seq<Statement>, s: Statement :: s.CreateTable? ==> respond(h, s) == Returned(-1)
    requires forall h: seq<Statement>, c :: c in t.Columns ==> c.ColumnName in columnsOf(h, t.TableName)
    requires CommitAll(respond, columnsOf, p, ts) == CommitState(Progress(h, p.states, None), [])
    ensures CommitAll(respond, columnsOf, p, ts + [t])
         == CommitState(Progress(h + [CreateTable(t.TableName, StatesOf(p.states, t.Columns))], p.states, None), [])
  {
    var all := ts + [t];
    assert all[..|ts|] == ts && all[..|ts| + 1] == all && all[|ts|] == t;
    var create := CreateTable(t.TableName, StatesOf(p.states, t.Columns));
    assert respond(h, create) == Returned(-1);
    var s := CommitAll(respond, columnsOf, p, ts);
    TableAlreadyCurrent(respond, columnsOf, s.progress, t);
    var step := CommitTableSpec(respond, columnsOf, s.progress, t);
    assert step == TableStep(Progress(h + [create], p.states, None), None);
    CommitAllStep(respond, columnsOf, p, all, |ts|);
    assert CommitAll(respond, columnsOf, p, all) == CommitState(step.progress, s.results + []);
  }

  /**
   * Committing tables the database already holds with every declared
   * column (CREATE TABLE returns -1 and every name is live) sends only the
   * CREATE TABLE statements, changes no column and records no result.
   */
  lemma {:induction false} QuietRecommit(respond: (seq<Statement>, Statement) -> Outcome, columnsOf: (seq<Statement>, string) -> seq<string>,
                                         p: Progress, ts: seq<Table>)
    requires p.error.None? && CoversAll(p.states, ts)
    requires forall h: seq<Statement>, s: Statement :: s.CreateTable? ==> respond(h, s) == Returned(-1)
    requires forall h: seq<Statement>, t, c :: t in ts && c in t.Columns ==> c.ColumnName in columnsOf(h, t.TableName)
    ensures CommitAll(respond, columnsOf, p, ts)
         == CommitState(Progress(p.history + CreateStatements(p.states, ts), p.states, None), [])
    decreases |ts|
  {
    if ts != [] {
      var init := ts[..|ts| - 1];
      forall u | u in init
        ensures u in ts
      {
      }
      var t := ts[|ts| - 1];
      QuietRecommit(respond, columnsOf, p, init);
      assert t in ts;
      assert init + [t] == ts;
      var creates, create := CreateStatements(p.states, init), CreateTable(t.TableName, StatesOf(p.states, t.Columns));
      QuietStep(respond, columnsOf, p, init, t, p.history + creates);
      assert CreateStatements(p.states, ts) == creates + [create];
      assert p.history + (creates + [create]) == p.history + creates + [create];
    }
  }
}
