/**
 * `SQLitePersistence`: the batch update of changed entities through a
 * temporary staging table, and the assignment of auto-incremented primary
 * keys after a batch insert.
 *
 * The SQLite driver is not modelled: whether executing the staging script
 * or either read-back query throws, the rows the staging table returns and
 * the value of `last_insert_rowid()` are parameters.
 */
module Persistence {
  import opened Common
  import opened Connection
  import opened UpdateCompiler
  import opened UpdateProperties
  import opened UpdateScript
  import opened WriteBack

  /** The auto-increment assignments of a batch insert: the `k`-th item's property `name` receives `start + k`. */
  function KeyWrites(name: Field, items: seq<Entity>, start: int): seq<Write>
    decreases |items|
  {
    if items == [] then []
    else KeyWrites(name, items[..|items| - 1], start) + [Write(items[|items| - 1], name, Num(start + |items| - 1))]
  }

  class SqlitePersistence {
    const connection: SqliteConnection

    constructor (connection: SqliteConnection)
      ensures this.connection == connection
    {
      this.connection := connection;
    }

    /**
     * `update`: compiles the change sets, assembles and executes the
     * staging script, and, when some change set incremented a field, reads
     * the staging table back into the registered entities. `execThrows` is
     * whether the driver throws on the script, `readThrows` whether it
     * throws on the read-back query, `returned` the rows that query yields.
     * `script` is the script handed to the driver, `readBack` whether the
     * staging table was read and copied into the entities. A failing
     * statement propagates its error and no entity is written.
     */
    method Update(ctx: Context, changeSets: seq<ChangeSet>, execThrows: bool, readThrows: bool, returned: seq<Row>)
      returns (outcome: Outcome, script: Option<Script>, readBack: bool)
      modifies ItemsOf(Compile(ctx, changeSets).assign)
      ensures changeSets == [] ==> script == None
      ensures changeSets != [] ==>
        ScriptOf(ctx, Compile(ctx, changeSets)).Ok? && script == Some(ScriptOf(ctx, Compile(ctx, changeSets)).value)
      ensures outcome ==
        if changeSets == [] then Threw(TypeError)
        else if execThrows then Threw(DriverError)
        else if readThrows && exists i :: 0 <= i < |changeSets| && changeSets[i].incDelta.keys != [] then Threw(DriverError)
        else Done
      ensures readBack <==> outcome == Done && exists i :: 0 <= i < |changeSets| && changeSets[i].incDelta.keys != []
      ensures !readBack ==> forall e :: e in ItemsOf(Compile(ctx, changeSets).assign) ==> e.fields == old(e.fields)
      ensures readBack ==> var st := Compile(ctx, changeSets);
        forall e :: e in ItemsOf(st.assign) ==> e.fields == Applied(old(e.fields), e, Writes(ctx.pkName, st.assign, returned))
    {
      var st := CompileChangeSets(ctx, changeSets);
      RegisteredItemsInBatch(ctx, changeSets);
      var r := AssembleScript(ctx, st);
      ScriptIffNonEmpty(ctx, changeSets);
      if r.Err? {
        return Threw(r.error), None, false;
      }
      script := Some(r.value);
      if execThrows {
        return Threw(DriverError), script, false;
      }
      CompileRest(ctx, changeSets);
      SetReturningIffIncrement(changeSets);
      if st.setReturning != {} {
        if readThrows {
          return Threw(DriverError), script, false;
        }
        ApplyReturning(ctx.pkName, st.assign, returned);
      }
      outcome, readBack := Done, st.setReturning != {};
    }

    /**
     * `populateAutoIncrementFields`: without an auto-increment field,
     * nothing happens and no query is sent; otherwise the `k`-th item
     * receives `lastInserted - |items| + 1 + k`, `lastInserted` being what
     * `last_insert_rowid()` returns. `queryThrows` is whether the driver
     * throws on that query; the error then propagates and no item is
     * written.
     */
    method PopulateAutoIncrementFields(autoIncrement: Option<Field>, items: seq<Entity>, queryThrows: bool, lastInserted: int)
      returns (outcome: Outcome)
      modifies set e | e in items
      ensures outcome == if autoIncrement.Some? && queryThrows then Threw(DriverError) else Done
      ensures autoIncrement.None? || queryThrows ==> forall e :: e in items ==> e.fields == old(e.fields)
      ensures autoIncrement.Some? && !queryThrows ==>
        forall e :: e in items ==>
          e.fields == Applied(old(e.fields), e, KeyWrites(autoIncrement.value, items, lastInserted - |items| + 1))
    {
      outcome := Done;
      if autoIncrement.None? {
        return;
      }
      if queryThrows {
        return Threw(DriverError);
      }
      var name := autoIncrement.value;
      var first := lastInserted - |items| + 1;
      ghost var start := map e | e in items :: e.fields;
      var next := first;
      var i := 0;
      while i < |items|
        invariant 0 <= i <= |items| && next == first + i
        invariant forall e :: e in items ==> e in start && start[e] == old(e.fields)
        invariant forall e :: e in items ==> e.fields == Applied(start[e], e, KeyWrites(name, items[..i], first))
      {
        var item := items[i];
        ghost var before := KeyWrites(name, items[..i], first);
        ghost var w := Write(item, name, Num(next));
        item.fields := item.fields[name := Num(next)];
        assert items[..i + 1][..i] == items[..i];
        assert KeyWrites(name, items[..i + 1], first) == before + [w];
        forall e | e in items
          ensures e.fields == Applied(start[e], e, before + [w])
        {
          AppliedSnoc(start[e], e, before, w);
        }
        next := next + 1;
        i := i + 1;
      }
      assert items[..i] == items;
    }
  }

  /** The `k`-th assignment gives the `k`-th item the key `start + k`. */
  lemma {:induction false} KeyWritesIndexed(name: Field, items: seq<Entity>, start: int)
    ensures |KeyWrites(name, items, start)| == |items|
    ensures forall k :: 0 <= k < |items| ==> KeyWrites(name, items, start)[k] == Write(items[k], name, Num(start + k))
    decreases |items|
  {
    if items != [] {
      var front := items[..|items| - 1];
      KeyWritesIndexed(name, front, start);
      forall k | 0 <= k < |front| ensures items[k] == front[k] {}
    }
  }

  /** The last assignment in a list that names `e` once, at index `k`, is that one. */
  lemma {:induction false} LastWriteAtOnlyIndex(e: Entity, f: Field, ws: seq<Write>, k: int)
    requires 0 <= k < |ws| && ws[k].item == e && ws[k].field == f
    requires forall j :: 0 <= j < |ws| && j != k ==> ws[j].item != e
    ensures LastWrite(e, f, ws) == Some(ws[k].value)
    decreases |ws|
  {
    if k < |ws| - 1 {
      var front := ws[..|ws| - 1];
      forall j | 0 <= j < |front| && j != k ensures front[j].item != e {
        assert front[j] == ws[j];
      }
      LastWriteAtOnlyIndex(e, f, front, k);
    }
  }

  /**
   * For a batch of distinct entities, the `k`-th entity's auto-increment
   * field ends up as `lastInserted - |items| + 1 + k`: the keys are
   * consecutive and the last entity receives `lastInserted` itself.
   */
  lemma {:induction false} ConsecutiveKeys(name: Field, items: seq<Entity>, lastInserted: int, m: map<Field, Value>, k: int)
    requires NoDup(items) && 0 <= k < |items|
    ensures var fields := Applied(m, items[k], KeyWrites(name, items, lastInserted - |items| + 1));
      name in fields && fields[name] == Num(lastInserted - |items| + 1 + k)
    ensures k == |items| - 1 ==> Applied(m, items[k], KeyWrites(name, items, lastInserted - |items| + 1))[name] == Num(lastInserted)
  {
    var start := lastInserted - |items| + 1;
    var ws := KeyWrites(name, items, start);
    KeyWritesIndexed(name, items, start);
    LastWriteAtOnlyIndex(items[k], name, ws, k);
    AppliedLookup(m, items[k], ws, name);
  }
}
