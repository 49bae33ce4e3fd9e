# Simple.MySql schema mapping and additive migration, in Dafny

This project models three pieces of the Simple.MySql wrapper.

- **The column model** (`Schema/Column.cs`). A record field's native type maps to an engine column type through a first-match chain. The field's annotations give the primary-key, auto-increment, unique, nullability and default-value flags. A column renders two DDL fragments: its CREATE TABLE definition and its `ADD COLUMN` clause. Rendering `ADD COLUMN` fills in a reasonable default, in place, for a NOT NULL column that has none.
- **The migration reconciler** (`Schema/TableMapper.cs`).
  - Tables are registered in a backlog, and the caller can configure the last one.
  - A commit sends CREATE TABLE for each table. When the database answers -1 (the table exists), the commit adds every declared column the live table lacks, one `ALTER TABLE` per column and in declared order.
  - The commit records one result per table that was created or extended, then empties the backlog.
- **Two decision rules of `MysqlDB.cs`.** `adjustInsertValue` turns an unset primary key into null (integers) or a fresh Guid (written back to the caller's object). `Get` picks the column it filters on.

The database is an oracle, `TableMapping.Database`:
- `respond(history, statement)` is the outcome of a statement (an affected-row count, or an exception), given the statements sent before it.
- `columnsOf(history, table)` is the live column-name list.
- `executed` logs every statement sent.

Column objects may be shared between tables. For that reason the specification of a commit follows one state per column object (`map<Column, ColumnState>`), not one per position.

Modules:
- `Wrappers`: Option and Result.
- `Fragments`: the clause grammar of a rendered fragment, and a decoder that reads one back.
- `Columns`: the column class, its mapping and its renderers.
- `TableMapping`: the database oracle, the mapper class, and the commit specification functions.
- `MigrationProperties`: lemmas about a commit.
- `MysqlDb`: key adjustment and key-column choice.

Where the two differ, the model follows the code, not the documented behaviour:
- `ADD COLUMN` emits `DEFAULT '<v>'` whenever the column has a default, not only for NOT NULL columns (Column.cs:219-222).
- The ALTER statement text is `ALTER TABLE <t> ` followed by the `ADD COLUMN` fragment, which begins with its own space. The text therefore holds two spaces before `ADD` (TableMapper.cs:80, Column.cs:196).

## Model

| member | source | states |
|---|---|---|
| Columns.EngineTypeName | Simple.MySql/Schema/Column.cs:166 | The rendered engine type name is non-empty and holds no space, so it ends at the next space of a fragment. |
| Columns.MapType | Simple.MySql/Schema/Column.cs:119-150 | Fails exactly on a type the chain has no rule for, and the error names that type and the field. Auto-increment types come exactly from int/uint/long/ulong/enum. Text/blob types come exactly from string/Uri/Color/byte[]. Numeric types come exactly from the numeric natives and enums. |
| Columns.ErrorMessage | Simple.MySql/Schema/Column.cs:147 | The unsupported-type message contains both the type name and the field name. |
| Columns.FirstDefault | Simple.MySql/Schema/Column.cs:86-94 | None exactly when no attribute is a DefaultValue. Otherwise it is the object of the first DefaultValue attribute in attribute order. |
| Columns.Any | Simple.MySql/Schema/Column.cs:158-159 | `s.Any(p)` holds exactly when some character of s satisfies p. |
| Columns.CheckColumnName | Simple.MySql/Schema/Column.cs:157-159 | Each of the three errors holds exactly under its own condition, tested in source order: empty; then some whitespace; then no whitespace but some symbol. There is no error exactly when the name is valid. |
| Columns.DefinitionClausesOrder | Simple.MySql/Schema/Column.cs:169-178 | The CREATE TABLE clauses come in the fixed order PRIMARY KEY, AUTOINCREMENT, UNIQUE, NOT NULL, DEFAULT. DEFAULT is present exactly when there is a default value, and then it is the last clause and carries that value's text. |
| Columns.DefinitionClausesPresence | Simple.MySql/Schema/Column.cs:169-173 | Each of PRIMARY KEY, AUTOINCREMENT, UNIQUE and NOT NULL is present exactly when its flag says so. |
| Columns.AddColumnClausesOrder | Simple.MySql/Schema/Column.cs:204-222 | The ADD COLUMN clauses keep the same fixed order. DEFAULT is present exactly when there is a default, and is then last. |
| Columns.AddColumnClausesPresence | Simple.MySql/Schema/Column.cs:204-211 | ADD COLUMN never carries PRIMARY KEY or UNIQUE. AUTOINCREMENT and NOT NULL are present exactly when their flags say so. |
| Columns.ReasonableDefault | Simple.MySql/Schema/Column.cs:227-255 | Only DefaultValue changes. A DateTime field gets DateTime.MinValue, then (type switch) a numeric column gets 0 and a text column gets "". Any other column is left as it is. |
| Columns.WithReasonableDefault | Simple.MySql/Schema/Column.cs:207-217 | Only DefaultValue changes, and only for a NOT NULL column without a default. The result is a fixed point of the defaulting rule. A NOT NULL DateTime, numeric or text column always ends with a default. |
| Columns.Column.constructor | Simple.MySql/Schema/Column.cs:102-112 | The new column holds exactly the given properties. |
| Columns.Column.FromInfo | Simple.MySql/Schema/Column.cs:52-113 | Fails exactly as MapType does. On success, a fresh column with: the field's name and native type; MapType's engine type; IsPK iff PrimaryKey and IsUnique iff Unique; AllowNulls iff no NotNull and (AllowNull or a text/blob type); IsAI iff IsPK and an Int32/Int64/UInt32/UInt64 type, so IsAI implies IsPK; the first DefaultValue attribute. |
| Columns.Column.ExportColumnDefinitionAsStatement | Simple.MySql/Schema/Column.cs:155-181 | An invalid name gives the first failing check's error, before any output. Otherwise the text is `<name> <type> ` followed by the clause list, as a decodable fragment. |
| Columns.Column.ExportAddColumnAsStatement | Simple.MySql/Schema/Column.cs:188-225 | An invalid name gives its error and leaves the column unchanged. Otherwise the column is left with its default settled (WithReasonableDefault), and the text is ` ADD COLUMN ` plus the fragment of the settled column. |
| Columns.Column.SetReasonableDefault | Simple.MySql/Schema/Column.cs:227-255 | The column's new state is ReasonableDefault of its old state. |
| Fragments.FragmentRoundTrip | Simple.MySql/Schema/Column.cs:163-178 | A fragment whose name and type hold no space, and whose DEFAULT clause (if any) is last, reads back as itself. |
| Columns.DefinitionRoundTrip | Simple.MySql/Schema/Column.cs:155-181 | The CREATE TABLE text of a column with a valid name decodes to that column's name, type name and clause list. |
| Columns.AddColumnRoundTrip | Simple.MySql/Schema/Column.cs:196-222 | The ADD COLUMN text of a column with a valid name decodes to its name, type and ADD COLUMN clauses, and the decoded clauses hold neither PRIMARY KEY nor UNIQUE. |
| Columns.NotNullAddColumnHasDefault | Simple.MySql/Schema/Column.cs:207-222 | A NOT NULL DateTime, numeric or text column's ADD COLUMN clauses hold NOT NULL and end with a DEFAULT. |
| Columns.AddColumnExportIsStable | Simple.MySql/Schema/Column.cs:213-216 | Settling the default twice is settling it once, so a second export renders the same ADD COLUMN text. |
| TableMapping.Database.ExecuteNonQuery | Simple.MySql/MysqlDB.cs:75-84 | The statement is appended to the log, and the outcome is the oracle's answer given the statements sent before it. |
| TableMapping.Database.GetTableSchema | Simple.MySql/MysqlDB.cs:61-71 | The live column names are the oracle's answer for the table, given the statements sent so far. |
| TableMapping.Missing | Simple.MySql/Schema/TableMapper.cs:73-75 | A column is missing exactly when it is declared and its name is not live. The missing list is no longer than the declared one. |
| TableMapping.MissingOne | Simple.MySql/Schema/TableMapper.cs:73-75 | A single declared column is missing exactly when its name is not live. |
| TableMapping.MissingConcat | Simple.MySql/Schema/TableMapper.cs:73-75 | The diff is a filter that keeps declared order and every occurrence: the missing columns of `a + b` are those of `a` followed by those of `b`. |
| TableMapping.AlterOne | Simple.MySql/Schema/TableMapper.cs:77-81 | One pass changes the state of the exported column only. |
| TableMapping.AlterAll | Simple.MySql/Schema/TableMapper.cs:77-81 | The ALTER loop follows the same column objects it started with. |
| TableMapping.AlterAllStops | Simple.MySql/Schema/TableMapper.cs:77-81 | Once an ALTER has failed, the remaining missing columns send nothing and change nothing. |
| TableMapping.CommitTableSpec | Simple.MySql/Schema/TableMapper.cs:53-95 | commitTable follows the same column objects. A step that stops on an error records no result. |
| TableMapping.CommitAll | Simple.MySql/Schema/TableMapper.cs:39-51 | A commit follows the same column objects it started with. |
| TableMapping.CommitAllStops | Simple.MySql/Schema/TableMapper.cs:43-47 | Once a table has failed, the remaining tables send nothing and record nothing. |
| TableMapping.TableMapper.constructor | Simple.MySql/Schema/TableMapper.cs:16-21 | A new mapper on the given database has an empty backlog. |
| TableMapping.TableMapper.Add | Simple.MySql/Schema/TableMapper.cs:23-28 | Exactly one table is appended at the end of the backlog, and the same mapper is returned. |
| TableMapping.TableMapper.ConfigureTable | Simple.MySql/Schema/TableMapper.cs:29-37 | With an empty backlog it fails and changes nothing. Otherwise the options apply to the last table only, and the same mapper is returned. |
| TableMapping.TableMapper.Commit | Simple.MySql/Schema/TableMapper.cs:39-51 | The statements sent and the column states equal CommitAll over the backlog in registration order. Without an error the results are CommitAll's non-null results and the backlog is empty. On an error, the error is returned and the backlog is kept. |
| TableMapping.TableMapper.CommitTable | Simple.MySql/Schema/TableMapper.cs:53-95 | The statements sent, the column states and the returned result or error are those of CommitTableSpec. |
| TableMapping.TableMapper.AddColumns | Simple.MySql/Schema/TableMapper.cs:77-81 | The foreach sends what AlterAll specifies, leaves the columns in AlterAll's states, and reports its error. |
| TableMapping.TableMapper.AddColumn | Simple.MySql/Schema/TableMapper.cs:79-80 | One export and one ALTER TABLE, as AlterOne specifies. |
| MigrationProperties.AlterAllSettles | Simple.MySql/Schema/TableMapper.cs:77-81 | An ALTER loop without an error met only valid column names. Every visited column is left with its default settled, and every other column is untouched. |
| MigrationProperties.AlterAllHistory | Simple.MySql/Schema/TableMapper.cs:77-81 | An ALTER loop without an error sent exactly one `ALTER TABLE <t>  ADD COLUMN …` per missing column, in declared order, each with its default settled. |
| MigrationProperties.CreateOutcomes | Simple.MySql/Schema/TableMapper.cs:55-64 | CREATE returning 0 records `{TableName, WasTableCreated = true, ColumnsAdded = []}`. An exception stops with that error. Any count other than 0 and -1 records nothing. None of them sends more or changes a column. |
| MigrationProperties.ExistingTableEffect | Simple.MySql/Schema/TableMapper.cs:66-92 | On -1 without an error, the statements are CREATE then the ALTERs of the missing columns in declared order. The result is `{WasTableCreated = false, ColumnsAdded = their names}`, and there is none when nothing is missing. |
| MigrationProperties.MissingNone | Simple.MySql/Schema/TableMapper.cs:73-75 | When every declared name is live, nothing is missing. |
| MigrationProperties.MissingAfterAdding | Simple.MySql/Schema/TableMapper.cs:73-81 | Once the added names are live, the diff is empty. |
| MigrationProperties.TableAlreadyCurrent | Simple.MySql/Schema/TableMapper.cs:66-94 | A table that exists with every declared column live gets its CREATE only, keeps its column states and records no result. |
| MigrationProperties.CommitTableResult | Simple.MySql/Schema/TableMapper.cs:56-92 | A result names its table. It reports creation exactly when it lists no added column. It lists at most as many names as declared columns, each the name of a declared column that was not live. |
| MigrationProperties.CommitAllResults | Simple.MySql/Schema/TableMapper.cs:43-47 | A commit records at most one result per table, in registration order. The lemma returns strictly increasing indices `idx` into the backlog such that result k names table `idx[k]`. |
| MigrationProperties.QuietRecommit | Simple.MySql/Schema/TableMapper.cs:39-94 | Re-committing tables that all exist with every column live sends only their CREATE statements, changes no column and records no result. |
| MysqlDb.AdjustedValueAsWritten | Simple.MySql/MysqlDB.cs:214-232 | The rule as written. Only a primary key is changed. A `long` key is never changed, since its box never equals the `int` 0. For every other field type the result is the corrected rule's. |
| MysqlDb.AdjustedValue | Simple.MySql/MysqlDB.cs:214-232 | The rule as intended. A non-key or a key that is not unset is left as it is. An unset Guid key becomes the fresh Guid. An unset `int` or `long` key becomes null. |
| MysqlDb.AdjustChangesOnlyUnsetKeys | Simple.MySql/MysqlDB.cs:214-232 | With a fresh Guid that is not empty, a value changes exactly when it is a primary key holding integer 0 or Guid.Empty. Non-keys and keys of other types are never changed. |
| MysqlDb.AdjustLeavesNoUnsetKey | Simple.MySql/MysqlDB.cs:218-230 | After adjustment no primary key is unset. An int/long key is null or unchanged. A Guid key is a Guid. |
| MysqlDb.AdjustInsertValue | Simple.MySql/MysqlDB.cs:214-232 | For a value boxed as its field's declared type, the adjusted value is the corrected rule's. An empty Guid key is replaced by the fresh Guid, and that Guid is written into the caller's object under the field's name. No other write happens. |
| MysqlDb.LongZeroKeyIsKept | Simple.MySql/MysqlDB.cs:218-222 | As written, a `long` primary key holding 0 is sent as 0, not null. |
| MysqlDb.AsWrittenDiffersOnlyOnLongZero | Simple.MySql/MysqlDB.cs:218-222 | For well-typed values, the as-written and corrected rules differ exactly on a `long` primary key holding 0. |
| MysqlDb.FirstPrimaryKey | Simple.MySql/MysqlDB.cs:177-179 | None exactly when no field is a primary key. Otherwise it is the index of the first primary-key field. |
| MysqlDb.KeyColumn | Simple.MySql/MysqlDB.cs:176-180 | The explicit key column if given; else the first primary-key field's name; else `_rowid_`. |

## Left out

- Connection handling, command execution and the MySql client are not modelled. `getConnection`, the constructors, and the bodies of ExecuteReader, ExecuteQuery, ExecuteScalar (with its DateTime parsing) and GetAllTables are I/O. The database is the oracle described above.
- TableMapping.Database.GetTableSchema returns the ColumnName column as a list of names, not the schema DataTable. A SELECT on a missing table throws in the source; this model leaves that out.
- `Table.FromType` and `ExportCreateTable` (Schema/Table.cs) are not part of this model. A table is its name plus its column objects. The CREATE TABLE statement carries the column states it was sent with, not its text. Rendering the CREATE text therefore never fails in this model. If a column name is invalid, the source would throw before anything is sent; that error path is not modelled.
- The reflection-based type cache (`ReaderCachedCollection`, `TypeHelper.ReadParamValue`) is not part of this model. `Add` receives the table it would build.
- TableMapping.TableMapper.ConfigureTable models the `Action<ITable>` options as a function from table to table.
- The string form of DateTime.MinValue depends on the process culture. It is an unspecified constant.
- The string form of a DefaultValue attribute object depends on that attribute class, which is not part of this model. It is carried as the attribute's `shown` text.
- Columns.CheckColumnName: `char.IsSymbol` is modelled for U+0000..U+00FF only. Symbol characters above U+00FF are treated as non-symbols. `char.IsWhiteSpace` is modelled exactly.
- A null column name is merged with the empty one, since both fail the first check with the same error.
- Only DefaultValue of a column is mutable here. The other properties have public setters in the source, but nothing in the modelled core writes them after construction.
- `Guid.NewGuid()` is a parameter of the key adjustment.
- `fillParameters`, `GetAll`, `GetAllWhere` and the SQL text of `Get` are left out. Only `Get`'s key-column choice is modelled.
- Simple.MySql/Schema/MySqlDbType.cs is not used: its members do not match the engine type names Column.cs writes, which the model's EngineType follows. Simple.MySql/Attributes/DataTypeAttribute.cs is not consulted by the mapping.
- Integer values in `MysqlDb.Value` are unbounded. Only zero versus nonzero matters to the rules.

## Findings

| source | as written | input that shows it | evidently intended | confidence | as-written member | corrected member |
|---|---|---|---|---|---|---|
| Simple.MySql/MysqlDB.cs:220 | `value.Equals(0)` compares the boxed value with a boxed `int` 0, and `Int64.Equals(object)` is false for any non-`long` argument | a `long` primary key holding 0 | an integer primary key equal to 0 (`int` or `long`) is sent as null so that auto-increment assigns it | not executed | MysqlDb.AdjustedValueAsWritten, MysqlDb.LongZeroKeyIsKept, MysqlDb.AsWrittenDiffersOnlyOnLongZero | MysqlDb.AdjustedValue, MysqlDb.AdjustInsertValue, MysqlDb.AdjustChangesOnlyUnsetKeys |
