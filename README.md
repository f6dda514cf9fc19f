# SQLite adapter: staging-table updates, patch and delete

This project models the core of deepkit's SQLite adapter,
`packages/sqlite/src/sqlite-adapter.ts`, in Dafny and proves properties of
the model. The core has five parts.

- **Batch update** (`SQLitePersistence.update`). It compiles a list of
  change sets (`$set` and `$inc` deltas per entity) into one script. The
  script fills a temporary staging table `_b` from a `VALUES` list, joins
  it to the origin table and runs one `UPDATE … FROM _b`. When some change
  set incremented a field, the adapter reads `_b` back and copies the new
  values into the in-memory entities.
- **Auto-increment keys** (`populateAutoIncrementFields`). After a batch
  insert, the adapter derives each inserted entity's key from
  `last_insert_rowid()`.
- **Query-scoped patch** (`SQLiteQueryResolver.patch`). It builds a select
  list and a SET list from `$set`, `$unset`, `$inc` and the `returning`
  fields. It stages the selected rows, updates from them, and fills the
  caller's `PatchResult`.
- **Query-scoped delete** (`SQLiteQueryResolver.delete`). It stages the
  selected primary keys, deletes those rows, and fills the caller's
  `DeleteResult`.
- **Connection bookkeeping.** The pool counts active connections. A
  connection remembers the change count of its last `run`. `disconnect`
  refuses to close the database while a connection is still out.

## How the model is built

- The code works imperatively, so the model does too.
  - The loops of `update` are methods (`UpdateCompiler.CompileChangeSets`
    and its per-change-set and per-field helpers). Each is proved to
    compute a fold-style specification function (`Compile`, `Step`,
    `SetField`, `IncField`).
  - The read-back writes into `Entity` objects in place
    (`WriteBack.ApplyReturning`).
  - `PatchResult`, `DeleteResult`, the pool, the connection and the adapter
    are classes whose methods update their fields.
- `UpdateProperties` characterises `Compile` against reference definitions
  written per field and per change set:
  - `ColumnOf`: the literals each change set contributes to a column;
  - `ArmsOf`: the CASE arms of a field;
  - `FieldStream`: the fields in order of first appearance;
  - `NamesOf` and `ItemOf`: the write-back registrations.
- The driver is not modelled. Whether a statement throws, the change
  counts `run` reports, and the rows a `SELECT * FROM …` returns are
  parameters (`execThrows`, `readThrows` and `returned` for `update`,
  `queryThrows` and `lastInserted` for `populateAutoIncrementFields`,
  `Driver` for patch and delete).
- The SQL text is modelled as structured output.
  - `Literal` is `quoteValue` kept symbolic.
  - `Script` holds the renames, the VALUES rows, the staging selects and
    the SET clauses.
  - `PatchPlan.Plan` holds the select list, the SET list and
    `aggregateFields`.
- JavaScript objects are `Obj`: their own keys in order plus a map.
  `obj[k]` on a missing key is `Undefined`. An array cell past the end is
  `None`.

The staging table `_b` is dropped only at the start of the next script
(`DROP TABLE IF EXISTS`), never after use; the model has no drop step.

## Model

| member | source | states |
|---|---|---|
| Connection.ConnectionPool.GetConnection | packages/sqlite/src/sqlite-adapter.ts:84-87 | one more active connection; a fresh connection on this pool with no recorded changes |
| Connection.SqliteConnection.Run | packages/sqlite/src/sqlite-adapter.ts:59-63 | the connection's change count becomes the count the driver reports for the statement, and `GetChanges` then returns it |
| Connection.SqliteConnection.GetChanges | packages/sqlite/src/sqlite-adapter.ts:74-76 | returns the change count the connection recorded at its last `Run` |
| Connection.SqliteConnection.Release | packages/sqlite/src/sqlite-adapter.ts:273-275 | the pool counts one active connection fewer |
| Connection.DatabaseAdapter.Disconnect | packages/sqlite/src/sqlite-adapter.ts:407-412 | throws "connections still active" iff the pool's count is positive, leaving the database open; otherwise closes it |
| UpdateCompiler.CompileChangeSets | packages/sqlite/src/sqlite-adapter.ts:104-168 | the loop over the change sets leaves exactly the tables of the specification fold `Compile` |
| UpdateCompiler.CompileChangeSet | packages/sqlite/src/sqlite-adapter.ts:112-167 | one change set (primary key, `$set` loop, `$inc` loop) updates the tables as `Step` says |
| UpdateCompiler.AddSetFields | packages/sqlite/src/sqlite-adapter.ts:128-140 | the `$set` loop of one change set, as `SetLoop` over its keys |
| UpdateCompiler.AddSetField | packages/sqlite/src/sqlite-adapter.ts:131-139 | one `$set` field: a column and SET clause the first time, required, marked added, its serialized value quoted and pushed |
| UpdateCompiler.AddIncFields | packages/sqlite/src/sqlite-adapter.ts:142-167 | the `$inc` loop of one change set, as `IncLoop` over its keys |
| UpdateCompiler.AddIncField | packages/sqlite/src/sqlite-adapter.ts:143-166 | one `$inc` field: arm list, column and SET clause created once, registration under the id, arm appended, NULL pushed only if `$set` did not already push |
| UpdateProperties.StepValues | packages/sqlite/src/sqlite-adapter.ts:122-165 | per change set, every field's literal list grows by exactly that change set's contribution: the quoted id for the primary key, one literal for a field it names in `$set` or `$inc` (the `$set` value, else NULL), nothing otherwise |
| UpdateProperties.CompileValues | packages/sqlite/src/sqlite-adapter.ts:122-165 | after the whole batch, each field's list is the concatenation of the change sets' contributions, in order |
| UpdateProperties.CompileColumns | packages/sqlite/src/sqlite-adapter.ts:122-151 | the columns of `values` are the fields in order of first appearance, and they are the primary key followed by the SET clause fields |
| UpdateProperties.CompileArms | packages/sqlite/src/sqlite-adapter.ts:146-160 | `aggregateSelects[f]` exists iff some change set increments `f`, and holds one arm (id, increment) per such change set, in batch order |
| UpdateProperties.CompileAssign | packages/sqlite/src/sqlite-adapter.ts:153-157 | an id is registered iff some change set with that id increments something; its names are all those change sets' `$inc` keys in order; its item is the first such change set's entity |
| UpdateProperties.CompileRest | packages/sqlite/src/sqlite-adapter.ts:116-161 | `requiredFields` is the primary-key, `$set` and `$inc` keys in order of first appearance; `setReturning` is exactly the set of incremented fields |
| UpdateProperties.ItemOfInBatch | packages/sqlite/src/sqlite-adapter.ts:153-154 | a registered entity is that of a change set with that id that increments a field |
| UpdateProperties.FieldStreamMembers | packages/sqlite/src/sqlite-adapter.ts:122-144 | a field is met while filling `values` iff it is the primary key or some change set names it in `$set` or `$inc` |
| UpdateProperties.SetClausesOnePerField | packages/sqlite/src/sqlite-adapter.ts:132-151 | for a non-empty batch, one SET clause per non-key field some change set names, no repeats, in order of first appearance |
| UpdateProperties.PkOnlyChangeSetAddsNoClause | packages/sqlite/src/sqlite-adapter.ts:115-123 | a change set with no `$set` and no `$inc` keys adds no SET clause |
| UpdateProperties.ColumnLength | packages/sqlite/src/sqlite-adapter.ts:122-165 | the length of a field's list is the number of change sets for the primary key, plus the number of change sets that name the field |
| UpdateProperties.TouchCountAtMost | packages/sqlite/src/sqlite-adapter.ts:125-165 | no field is named by more change sets than the batch has, so with `ColumnLength` no non-key list holds more literals than there are change sets (the per-change-set bound is `StepValues`) |
| UpdateProperties.TouchCountBelow | packages/sqlite/src/sqlite-adapter.ts:125-165 | a field some change set does not name has fewer literals than the batch has change sets |
| UpdateProperties.PrimaryKeyColumnOnePerChangeSet | packages/sqlite/src/sqlite-adapter.ts:122-123 | when no change set sets or increments the key itself, the key column holds exactly one quoted id per change set, in order |
| UpdateProperties.UniformColumn | packages/sqlite/src/sqlite-adapter.ts:137-165 | a field every change set names holds, at position i, change set i's literal |
| UpdateProperties.SetReturningIffIncrement | packages/sqlite/src/sqlite-adapter.ts:142-158 | `setReturning` is non-empty iff some change set has an `$inc` key |
| UpdateScript.AssembleScript | packages/sqlite/src/sqlite-adapter.ts:170-197 | assembles the renames, VALUES rows and staging selects as `ScriptOf`; a TypeError when `values[pkName]` is undefined |
| UpdateScript.BuildRow | packages/sqlite/src/sqlite-adapter.ts:182 | row i holds `values[name][i]` for each column, undefined past a list's end |
| UpdateScript.RenamesNumbered | packages/sqlite/src/sqlite-adapter.ts:175-179 | the k-th column is renamed from `column(k+1)` |
| UpdateScript.CellsIndexed | packages/sqlite/src/sqlite-adapter.ts:182 | cell k of a row is the k-th column's value at that row |
| UpdateScript.RowsIndexed | packages/sqlite/src/sqlite-adapter.ts:181-183 | there is one VALUES row per primary-key literal, row i built from position i |
| UpdateScript.SelectsIndexed | packages/sqlite/src/sqlite-adapter.ts:185-197 | one staging select per required field, in order |
| UpdateScript.ScriptIffNonEmpty | packages/sqlite/src/sqlite-adapter.ts:181 | the script exists iff the batch is non-empty; an empty batch throws a TypeError |
| UpdateScript.OneRowPerChangeSet | packages/sqlite/src/sqlite-adapter.ts:122-183 | one VALUES row per change set, row i starting with change set i's quoted id |
| UpdateScript.UniformBatchAligned | packages/sqlite/src/sqlite-adapter.ts:176-183 | when all change sets name the same fields, cell k of row i is change set i's literal for the k-th column |
| UpdateScript.MixedBatchLeavesHole | packages/sqlite/src/sqlite-adapter.ts:176-183 | when one change set names a field another does not, the last VALUES row has an undefined cell in that field's column |
| UpdateScript.StagingSelects | packages/sqlite/src/sqlite-adapter.ts:185-197 | each required field's select is a CASE with one WHEN per incrementing change set, in order, when there is one, and a pass-through `_.f` otherwise |
| WriteBack.ApplyReturning | packages/sqlite/src/sqlite-adapter.ts:216-223 | every registered entity ends as its old fields with the intended write-back assignments applied in order |
| WriteBack.WriteRow | packages/sqlite/src/sqlite-adapter.ts:218-222 | one returned row adds the assignments its registration calls for, and none if the id is not registered |
| WriteBack.RegisteredItemsInBatch | packages/sqlite/src/sqlite-adapter.ts:153-157 | only entities of the batch whose change set increments a field can be written |
| WriteBack.AppliedLookup | packages/sqlite/src/sqlite-adapter.ts:221 | after a sequence of assignments, a property holds the value of its last assignment, or its old value if there was none |
| WriteBack.LastWriteNone | packages/sqlite/src/sqlite-adapter.ts:220-221 | a property has no last assignment iff no assignment in the sequence targets it |
| WriteBack.NameWritesTargets | packages/sqlite/src/sqlite-adapter.ts:220-221 | a row's assignments target the registered item and its registered names, with the row's values |
| WriteBack.WritesOnlyRegistered | packages/sqlite/src/sqlite-adapter.ts:218-222 | every assignment comes from a returned row whose id is registered, targets that registration's item and one of its names, and copies the row's value |
| WriteBack.LastWriteAppend | packages/sqlite/src/sqlite-adapter.ts:216-222 | the last assignment to a property in two successive runs of assignments is the second run's, or else the first run's |
| WriteBack.NameWritesLast | packages/sqlite/src/sqlite-adapter.ts:220-221 | a returned row's write-back assigns each registered name the row's value of that name |
| WriteBack.RowValueWritten | packages/sqlite/src/sqlite-adapter.ts:216-222 | when row k's id is registered with field f, and no later row is registered with the same entity and f, the entity's f ends up holding row k's value of f |
| WriteBack.AsWritten | packages/sqlite/src/sqlite-adapter.ts:216-222 | the loop as written only ever throws a TypeError, and when it finishes it has made exactly the intended assignments |
| WriteBack.UnwrittenUnchanged | packages/sqlite/src/sqlite-adapter.ts:220-221 | a property not registered for an entity keeps its old value (or stays absent) |
| WriteBack.AsWrittenAgainstIntended | packages/sqlite/src/sqlite-adapter.ts:216-222 | the loop as written completes iff every returned row's id is registered, then with the intended assignments; otherwise it throws a TypeError after the assignments of some prefix of the rows |
| WriteBack.UnregisteredRowThrows | packages/sqlite/src/sqlite-adapter.ts:216-222 | for a batch incrementing entity 1 and only setting entity 2, the loop as written assigns entity 1's count and then throws a TypeError; the intended loop only assigns entity 1's count |
| WriteBack.SingleRegistration | packages/sqlite/src/sqlite-adapter.ts:153-157 | a batch in which only one id has `$inc` names yields a single registration, of that id's entity and names |
| Persistence.SqlitePersistence.Update | packages/sqlite/src/sqlite-adapter.ts:98-225 | an empty batch throws a TypeError with no script; otherwise the compiled script is executed; a driver failure on the script or on the read-back query propagates and writes no entity; the staging table is read back and copied iff both succeed and some change set has an `$inc` key; registered entities change only then, by the intended write-back |
| Persistence.SqlitePersistence.PopulateAutoIncrementFields | packages/sqlite/src/sqlite-adapter.ts:227-240 | without an auto-increment field nothing changes and no query is sent; a failing `last_insert_rowid()` query propagates and writes no item; otherwise the items receive consecutive keys starting at `lastInserted - N + 1`, in order |
| Persistence.KeyWritesIndexed | packages/sqlite/src/sqlite-adapter.ts:235-239 | the k-th assignment gives the k-th item the key `start + k` |
| Persistence.LastWriteAtOnlyIndex | packages/sqlite/src/sqlite-adapter.ts:237-239 | an item assigned once keeps the value of that assignment |
| Persistence.ConsecutiveKeys | packages/sqlite/src/sqlite-adapter.ts:231-239 | for distinct items, item k receives `lastInserted - N + 1 + k`, and the last item receives `lastInserted` |
| PatchPlan.Item | packages/sqlite/src/sqlite-adapter.ts:292-313 | each select item is aliased to the field it comes from |
| PatchPlan.BuildPatch | packages/sqlite/src/sqlite-adapter.ts:279-319 | builds the select list, the SET list and `aggregateFields` exactly as `PlanOf` |
| PatchPlan.AddLoop | packages/sqlite/src/sqlite-adapter.ts:292-314 | one of the four loops appends one select item per key and adds each key to `fieldsSet` (not for `returning`) and to `aggregateFields` (for `returning` and `$inc`) |
| PatchPlan.BuildSetList | packages/sqlite/src/sqlite-adapter.ts:316-319 | one SET clause per key of `fieldsSet`, the k-th copying the k-th key's column from the staging table |
| PatchPlan.ItemsIndexed | packages/sqlite/src/sqlite-adapter.ts:292-314 | a loop produces one item per key, the k-th for the k-th key |
| PatchPlan.SelectLayout | packages/sqlite/src/sqlite-adapter.ts:284-314 | the primary key first; then one quoted serialized literal per `$set` key; one NULL per `$unset` key; one pass-through per `returning` field; one `f + inc` per `$inc` key, each group in order |
| PatchPlan.ExtendEmpty | packages/sqlite/src/sqlite-adapter.ts:292-296 | adding the keys of an object, which has no repeats, to an empty key set gives those keys in order |
| PatchPlan.FieldsSetExactly | packages/sqlite/src/sqlite-adapter.ts:292-319 | the SET list has no repeats and names exactly the fields of `$set`, `$unset` and `$inc`, so a field that is only returned is not set; the `$set` keys come first, in order |
| PatchPlan.AggregateFieldsExactly | packages/sqlite/src/sqlite-adapter.ts:304-314 | `aggregateFields` has no repeats and holds exactly the `returning` and `$inc` fields |
| PatchPlan.StagingHasColumns | packages/sqlite/src/sqlite-adapter.ts:316-352 | every field the UPDATE copies from `_b` and every field read back into `returning` is a column of the staging select |
| PatchPlan.StagedColumn | packages/sqlite/src/sqlite-adapter.ts:292-314 | any `$set`, `$unset`, `$inc` or `returning` field names a select item after the primary key |
| QueryResolver.DeleteResult.AppendKeys | packages/sqlite/src/sqlite-adapter.ts:270-272 | appends the converted primary key of every staged row, in row order |
| QueryResolver.PatchResult.ResetReturning | packages/sqlite/src/sqlite-adapter.ts:344-346 | `returning[f]` becomes empty for every aggregate field; other entries and fields stay |
| QueryResolver.PatchResult.AppendRow | packages/sqlite/src/sqlite-adapter.ts:349-352 | one staged row appends its converted key to `primaryKeys` and one converted value to each aggregate field's list |
| QueryResolver.PatchResult.AppendRows | packages/sqlite/src/sqlite-adapter.ts:348-353 | all staged rows, in order: `primaryKeys` and every aggregate field's list gain one converted value per row |
| QueryResolver.DeleteOn | packages/sqlite/src/sqlite-adapter.ts:262-273 | throws iff the driver throws at some statement; the connection's change count is that of the last completed `run`; `modified` and the keys are set only when the read-back completed |
| QueryResolver.PatchOn | packages/sqlite/src/sqlite-adapter.ts:335-355 | throws iff the driver throws; `modified` is the UPDATE's change count once the UPDATE completed, even if the read-back then throws; `returning` is reset and filled only when the read-back completed |
| QueryResolver.SqliteQueryResolver.Delete | packages/sqlite/src/sqlite-adapter.ts:252-276 | takes one connection and releases it on every path (active count unchanged); on success `modified` is the DELETE's change count and the staged keys are appended in order |
| QueryResolver.SqliteQueryResolver.Patch | packages/sqlite/src/sqlite-adapter.ts:278-358 | plans as `PlanOf`; takes one connection and releases it on every path; on success every aggregate field's `returning` list is exactly the converted staged values in row order, other entries are untouched, and `primaryKeys` gains the converted staged keys |
| QueryResolver.ColumnIndexed | packages/sqlite/src/sqlite-adapter.ts:348-352 | a result column has one value per staged row, the k-th converted from row k, so the keys a call appends to `primaryKeys` and every `returning[f]` are aligned by position with the staged rows |

## Left out

- The SQLite driver (`prepare`, `stmt.run/all/get`, `db.exec`, `db.close`) and what the SQL does in SQLite. Statement effects enter as parameters: a failure flag or failure stage, change counts, and returned rows.
- `SQLiteStatement`, the async plumbing, `console.warn` on a failing `exec`, the `PRAGMA` in the adapter constructor, the query factory classes, `getName` and `getSchemaName`. These are wiring with no logic.
- `quoteValue` and `quoteIdentifier` are kept symbolic (`Quote`). Identifier quoting is not represented.
- `partialSerialize` is modelled as converting each value of an object and keeping its keys and their order. `getPropertyXtoClassFunction` and `resolvePropertySchema` become the `toClass` converter.
- `SqlBuilder.select`, including the query's `where` and joins, is not part of this model. The patch select list is what the model hands it.
- JavaScript orders integer-like object keys before other keys. The model keeps insertion order for every key.
- JavaScript coerces an object key to a string (`assignReturning[id]`). The model keys by the value itself.
- Connection.SqliteConnection.Release: `release()` is inherited from the SQL connection layer, which is not part of this model. The model takes it to decrement the pool's count.
- Connection.DatabaseAdapter.Disconnect: the `force` parameter is ignored by the code and is not modelled.
- `update` builds a `where` list per change set (lines 113, 118) that it never uses. It is not modelled.
- Persistence.SqlitePersistence.Update: this member uses the corrected write-back (see Findings), so it never throws from the read-back on a staged row whose primary key has no registration, where the code as written throws a TypeError. The as-written loop is `WriteBack.AsWritten`.
- Persistence.SqlitePersistence.Update: SQLite's behaviour when a primary key also appears in `$set` or `$inc` (two literals in the key's column for one change set) is left to the lemmas' preconditions that exclude it.
- Persistence.SqlitePersistence.PopulateAutoIncrementFields: that `last_insert_rowid()` numbers a batch contiguously is a property of the store under no concurrent writers. The model states only the arithmetic, with the value as a parameter.
- UpdateScript.MixedBatchLeavesHole: what SQLite does with a VALUES row containing an empty cell is not modelled. The lemma stops at the undefined cell.

## Findings

| source | as written | input that shows it | evidently intended | confidence | as-written member | corrected member |
|---|---|---|---|---|---|---|
| packages/sqlite/src/sqlite-adapter.ts:216-222 | the read-back looks up `assignReturning[returning[pkName]]` for every row of `_b`, and `_b` holds a row for every change set, including those that only used `$set`; for such a row the lookup is `undefined` and `r.names` throws a TypeError after earlier rows were already written | a batch of two change sets: id 1 with `$inc: {count: 3}`, id 2 with `$set: {count: 0}`; `_b` returns `{id: 1, count: 8}` and `{id: 2, count: 0}` | rows whose id has no registration are skipped, so the update completes after writing `count = 8` into entity 1 | not executed | WriteBack.AsWritten, WriteBack.UnregisteredRowThrows | WriteBack.Writes, WriteBack.ApplyReturning |
