/**
 * `SQLiteQueryResolver`: the query-scoped `patch` and `delete`. Both stage
 * the primary keys (and, for `patch`, the new values) of the rows the
 * query selects in a temporary table, apply the change from it, and read
 * the staged rows back into the caller's result object. Both take one
 * connection from the pool and release it on every path, as the source's
 * `finally` does.
 *
 * The driver is not modelled: `Driver` says at which statement, if any,
 * the driver throws, the change counts its two `run` calls report and the
 * rows `SELECT * FROM _tmp_d` / `SELECT * FROM _b` yields. The serializer's
 * class conversion of a field (`getPropertyXtoClassFunction`) is the
 * parameter `toClass`.
 */
module QueryResolver {
  import opened Common
  import opened Connection
  import opened PatchPlan

  /** The statements of `patch` and `delete`, in execution order. */
  datatype Stage =
    | DropStaging    // `DROP TABLE IF EXISTS ...` (exec)
    | CreateStaging  // `CREATE TEMPORARY TABLE ... AS SELECT ...` (run)
    | Mutate         // the `UPDATE ... FROM _b` or `DELETE ... IN` (run)
    | ReadBack       // `SELECT * FROM ...` (execAndReturnAll)

  /** The driver's behaviour on one call: where it throws, if anywhere, the two `run` change counts and the staged rows. */
  datatype Driver = Driver(failsAt: Option<Stage>, staged: int, mutated: int, rows: seq<Row>)

  function Rank(s: Stage): nat {
    match s
    case DropStaging => 0
    case CreateStaging => 1
    case Mutate => 2
    case ReadBack => 3
  }

  /** Statement `s` completes: the driver throws at no statement, or at a later one. */
  predicate Passes(d: Driver, s: Stage) {
    d.failsAt.None? || Rank(s) < Rank(d.failsAt.value)
  }

  /** The converted values of column `f` of `rows`, in row order. */
  function Column(toClass: Converter, f: Field, rows: seq<Row>): seq<Value>
    decreases |rows|
  {
    if rows == [] then []
    else Column(toClass, f, rows[..|rows| - 1]) + [toClass(f, Cell(rows[|rows| - 1], f))]
  }

  /** `DeleteResult`: the change count and the primary keys of the deleted rows. */
  class DeleteResult {
    var modified: int
    var primaryKeys: seq<Value>

    constructor ()
      ensures modified == 0 && primaryKeys == []
    {
      modified := 0;
      primaryKeys := [];
    }

    /** Lines 270-272: the converted primary key of every staged row, appended in row order. */
    method AppendKeys(pkName: Field, toClass: Converter, rows: seq<Row>)
      modifies this
      ensures modified == old(modified)
      ensures primaryKeys == old(primaryKeys) + Column(toClass, pkName, rows)
    {
      var j := 0;
      while j < |rows|
        invariant 0 <= j <= |rows|
        invariant modified == old(modified)
        invariant primaryKeys == old(primaryKeys) + Column(toClass, pkName, rows[..j])
      {
        assert rows[..j + 1][..j] == rows[..j];
        primaryKeys := primaryKeys + [toClass(pkName, Cell(rows[j], pkName))];
        j := j + 1;
      }
      assert rows[..j] == rows;
    }
  }

  /** `PatchResult`: the change count, the primary keys of the patched rows, and the returned values per field. */
  class PatchResult {
    var modified: int
    var primaryKeys: seq<Value>
    var returning: map<Field, seq<Value>>

    constructor ()
      ensures modified == 0 && primaryKeys == [] && returning == map[]
    {
      modified := 0;
      primaryKeys := [];
      returning := map[];
    }

    /** Lines 344-346: the returned-value list of every field of `fields` becomes empty; other entries stay. */
    method ResetReturning(fields: seq<Field>)
      modifies this
      ensures modified == old(modified) && primaryKeys == old(primaryKeys)
      ensures forall f :: f in returning <==> f in old(returning) || f in fields
      ensures forall f :: f in returning ==> returning[f] == if f in fields then [] else old(returning)[f]
    {
      var i := 0;
      while i < |fields|
        invariant 0 <= i <= |fields|
        invariant modified == old(modified) && primaryKeys == old(primaryKeys)
        invariant forall f :: f in returning <==> f in old(returning) || f in fields[..i]
        invariant forall f :: f in returning ==> returning[f] == if f in fields[..i] then [] else old(returning)[f]
      {
        assert fields[..i + 1][..i] == fields[..i];
        forall f ensures f in fields[..i + 1] <==> f in fields[..i] || f == fields[i] {
          InFrontLast(fields[..i + 1], f);
        }
        returning := returning[fields[i] := []];
        i := i + 1;
      }
      assert fields[..i] == fields;
    }

    /**
     * Lines 349-352, one staged row: its converted primary key is appended
     * to `primaryKeys`, and its converted value of each field of `fields`
     * to that field's list.
     */
    method AppendRow(pkName: Field, fields: seq<Field>, toClass: Converter, row: Row)
      requires NoDup(fields) && forall f :: f in fields ==> f in returning
      modifies this
      ensures modified == old(modified)
      ensures primaryKeys == old(primaryKeys) + [toClass(pkName, Cell(row, pkName))]
      ensures returning.Keys == old(returning).Keys
      ensures forall f :: f in returning ==>
        returning[f] == old(returning)[f] + if f in fields then [toClass(f, Cell(row, f))] else []
    {
      primaryKeys := primaryKeys + [toClass(pkName, Cell(row, pkName))];
      var k := 0;
      while k < |fields|
        invariant 0 <= k <= |fields|
        invariant modified == old(modified) && primaryKeys == old(primaryKeys) + [toClass(pkName, Cell(row, pkName))]
        invariant returning.Keys == old(returning).Keys
        invariant forall f :: f in returning ==>
          returning[f] == old(returning)[f] + if f in fields[..k] then [toClass(f, Cell(row, f))] else []
      {
        var f := fields[k];
        assert fields[..k + 1][..k] == fields[..k];
        assert f !in fields[..k] by {
          forall j | 0 <= j < k ensures fields[..k][j] != f {
            assert fields[..k][j] == fields[j];
          }
        }
        forall g ensures g in fields[..k + 1] <==> g in fields[..k] || g == f {
          InFrontLast(fields[..k + 1], g);
        }
        returning := returning[f := returning[f] + [toClass(f, Cell(row, f))]];
        k := k + 1;
      }
      assert fields[..k] == fields;
    }

    /** Lines 348-353: every staged row in order, as `AppendRow` does it. */
    method AppendRows(pkName: Field, fields: seq<Field>, toClass: Converter, rows: seq<Row>)
      requires NoDup(fields) && forall f :: f in fields ==> f in returning
      modifies this
      ensures modified == old(modified)
      ensures primaryKeys == old(primaryKeys) + Column(toClass, pkName, rows)
      ensures returning.Keys == old(returning).Keys
      ensures forall f :: f in returning ==>
        returning[f] == old(returning)[f] + if f in fields then Column(toClass, f, rows) else []
    {
      var j := 0;
      while j < |rows|
        invariant 0 <= j <= |rows|
        invariant modified == old(modified)
        invariant primaryKeys == old(primaryKeys) + Column(toClass, pkName, rows[..j])
        invariant returning.Keys == old(returning).Keys
        invariant forall f :: f in returning ==>
          returning[f] == old(returning)[f] + if f in fields then Column(toClass, f, rows[..j]) else []
      {
        assert rows[..j + 1][..j] == rows[..j];
        AppendRow(pkName, fields, toClass, rows[j]);
        j := j + 1;
      }
      assert rows[..j] == rows;
    }
  }

  class SqliteQueryResolver {
    const pool: ConnectionPool

    constructor (pool: ConnectionPool)
      ensures this.pool == pool
    {
      this.pool := pool;
    }

    /**
     * `delete` (lines 252-276): on a connection from the pool, stages the
     * selected primary keys, deletes their rows, reads the staged keys back
     * and records the change count of the DELETE; the connection is
     * released whether or not the driver throws.
     */
    method Delete(pkName: Field, toClass: Converter, driver: Driver, result: DeleteResult) returns (outcome: Outcome)
      modifies pool, result
      ensures pool.activeConnections == old(pool.activeConnections)
      ensures outcome == if driver.failsAt.Some? then Threw(DriverError) else Done
      ensures result.modified == if driver.failsAt.None? then driver.mutated else old(result.modified)
      ensures result.primaryKeys ==
        old(result.primaryKeys) + if driver.failsAt.None? then Column(toClass, pkName, driver.rows) else []
    {
      var connection := pool.GetConnection();
      outcome := DeleteOn(connection, pkName, toClass, driver, result);
      connection.Release();
    }

    /**
     * `patch` (lines 278-357): plans the staging select and the SET list,
     * then, on a connection from the pool, stages the selected rows with
     * their new values, updates the table from them, records the UPDATE's
     * change count and reads the staged rows back; the connection is
     * released whether or not the driver throws.
     */
    method Patch(pkName: Field, changes: Changes, returning: seq<Field>, serialize: Converter, toClass: Converter,
                 driver: Driver, result: PatchResult)
      returns (outcome: Outcome, plan: Plan)
      modifies pool, result
      ensures plan == PlanOf(pkName, changes, returning, serialize)
      ensures pool.activeConnections == old(pool.activeConnections)
      ensures outcome == if driver.failsAt.Some? then Threw(DriverError) else Done
      ensures result.modified == if Passes(driver, Mutate) then driver.mutated else old(result.modified)
      ensures result.primaryKeys ==
        old(result.primaryKeys) + if driver.failsAt.None? then Column(toClass, pkName, driver.rows) else []
      ensures driver.failsAt.Some? ==> result.returning == old(result.returning)
      ensures driver.failsAt.None? ==>
        forall f :: f in result.returning <==> f in old(result.returning) || f in plan.aggregate
      ensures driver.failsAt.None? ==>
        forall f :: f in result.returning ==>
          result.returning[f] == if f in plan.aggregate then Column(toClass, f, driver.rows) else old(result.returning)[f]
    {
      plan := BuildPatch(pkName, changes, returning, serialize);
      AggregateFieldsExactly(changes, returning);
      var connection := pool.GetConnection();
      outcome := PatchOn(connection, pkName, plan.aggregate, toClass, driver, result);
      connection.Release();
    }
  }

  /** The `try` block of `delete` on `connection`. */
  method DeleteOn(connection: SqliteConnection, pkName: Field, toClass: Converter, driver: Driver, result: DeleteResult)
    returns (outcome: Outcome)
    modifies connection, result
    ensures outcome == if driver.failsAt.Some? then Threw(DriverError) else Done
    ensures connection.changes ==
      if Passes(driver, Mutate) then driver.mutated
      else if Passes(driver, CreateStaging) then driver.staged
      else old(connection.changes)
    ensures result.modified == if driver.failsAt.None? then driver.mutated else old(result.modified)
    ensures result.primaryKeys ==
      old(result.primaryKeys) + if driver.failsAt.None? then Column(toClass, pkName, driver.rows) else []
  {
    if !Passes(driver, DropStaging) {
      return Threw(DriverError);
    }
    if !Passes(driver, CreateStaging) {
      return Threw(DriverError);
    }
    connection.Run(driver.staged);
    if !Passes(driver, Mutate) {
      return Threw(DriverError);
    }
    connection.Run(driver.mutated);
    if !Passes(driver, ReadBack) {
      return Threw(DriverError);
    }
    result.modified := connection.GetChanges();
    result.AppendKeys(pkName, toClass, driver.rows);
    outcome := Done;
  }

  /** The `try` block of `patch` on `connection`; `aggregate` is `aggregateFields`. */
  method PatchOn(connection: SqliteConnection, pkName: Field, aggregate: seq<Field>, toClass: Converter,
                 driver: Driver, result: PatchResult)
    returns (outcome: Outcome)
    requires NoDup(aggregate)
    modifies connection, result
    ensures outcome == if driver.failsAt.Some? then Threw(DriverError) else Done
    ensures connection.changes ==
      if Passes(driver, Mutate) then driver.mutated
      else if Passes(driver, CreateStaging) then driver.staged
      else old(connection.changes)
    ensures result.modified == if Passes(driver, Mutate) then driver.mutated else old(result.modified)
    ensures result.primaryKeys ==
      old(result.primaryKeys) + if driver.failsAt.None? then Column(toClass, pkName, driver.rows) else []
    ensures driver.failsAt.Some? ==> result.returning == old(result.returning)
    ensures driver.failsAt.None? ==>
      forall f :: f in result.returning <==> f in old(result.returning) || f in aggregate
    ensures driver.failsAt.None? ==>
      forall f :: f in result.returning ==>
        result.returning[f] == if f in aggregate then Column(toClass, f, driver.rows) else old(result.returning)[f]
  {
    if !Passes(driver, DropStaging) {
      return Threw(DriverError);
    }
    if !Passes(driver, CreateStaging) {
      return Threw(DriverError);
    }
    connection.Run(driver.staged);
    if !Passes(driver, Mutate) {
      return Threw(DriverError);
    }
    connection.Run(driver.mutated);
    result.modified := connection.GetChanges();
    if !Passes(driver, ReadBack) {
      return Threw(DriverError);
    }
    result.ResetReturning(aggregate);
    result.AppendRows(pkName, aggregate, toClass, driver.rows);
    outcome := Done;
  }

  /**
   * Each staged row contributes exactly one value to a column, in row
   * order: what a call appends to `primaryKeys`, and each `returning[f]`
   * a patch refills from empty, has one entry per staged row, the k-th
   * from row k.
   */
  lemma {:induction false} ColumnIndexed(toClass: Converter, f: Field, rows: seq<Row>)
    ensures |Column(toClass, f, rows)| == |rows|
    ensures forall k :: 0 <= k < |rows| ==> Column(toClass, f, rows)[k] == toClass(f, Cell(rows[k], f))
    decreases |rows|
  {
    if rows != [] {
      var front := rows[..|rows| - 1];
      ColumnIndexed(toClass, f, front);
      forall k | 0 <= k < |front| ensures rows[k] == front[k] {}
    }
  }
}
