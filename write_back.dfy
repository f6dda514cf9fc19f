/**
 * The last part of `SQLitePersistence.update`: after the UPDATE, when some
 * change set incremented a field, the adapter reads the staging table back
 * and copies the incremented fields' new values into the in-memory
 * entities registered in `assignReturning`.
 *
 * A write-back is described as the sequence of property assignments it
 * performs (`Write`). `AsWritten` is the loop as the source has it: a
 * returned row whose primary key has no registration (a change set that
 * only used `$set`) makes the lookup yield `undefined`, and reading
 * `.names` of it throws. `Writes` is the evidently intended loop, which
 * passes over such rows; `WriteBack` performs it on the entities.
 */
module WriteBack {
  import opened Common
  import opened UpdateCompiler
  import opened UpdateProperties

  /** The assignment of `value` to property `field` of the in-memory entity `item`. */
  datatype Write = Write(item: Entity, field: Field, value: Value)

  /** The entities registered for write-back. */
  function ItemsOf(assign: map<Value, Registration>): set<Entity> {
    set id | id in assign :: assign[id].item
  }

  /** The assignments for one returned row: each name's value in the row is assigned to that property of `item`, in order. */
  function NameWrites(item: Entity, names: seq<Field>, row: Row): seq<Write>
    decreases |names|
  {
    if names == [] then []
    else NameWrites(item, names[..|names| - 1], row) + [Write(item, names[|names| - 1], Cell(row, names[|names| - 1]))]
  }

  /** The assignments the registration of a row's primary key calls for; none when the key is not registered. */
  function RowWrites(pk: Field, assign: map<Value, Registration>, row: Row): seq<Write> {
    var id := Cell(row, pk);
    if id in assign then NameWrites(assign[id].item, assign[id].names, row) else []
  }

  /** The evidently intended write-back: every row in order, rows without a registration contributing nothing. */
  function Writes(pk: Field, assign: map<Value, Registration>, rows: seq<Row>): seq<Write>
    decreases |rows|
  {
    if rows == [] then []
    else Writes(pk, assign, rows[..|rows| - 1]) + RowWrites(pk, assign, rows[|rows| - 1])
  }

  /**
   * Lines 216-222 as written: the assignments made before the loop stops,
   * and whether it threw. Looking up the registration of a row whose
   * primary key is not registered yields `undefined`, and reading its names
   * then throws a `TypeError`; the assignments for earlier rows have
   * already happened. The loop only ever throws that error, and when it
   * finishes it has made the intended assignments.
   */
  function AsWritten(pk: Field, assign: map<Value, Registration>, rows: seq<Row>): (r: (seq<Write>, Outcome))
    ensures r.1 == Done || r.1 == Threw(TypeError)
    ensures r.1 == Done ==> r.0 == Writes(pk, assign, rows)
    decreases |rows|
  {
    if rows == [] then ([], Done)
    else
      var (ws, outcome) := AsWritten(pk, assign, rows[..|rows| - 1]);
      var row := rows[|rows| - 1];
      if outcome.Threw? then (ws, outcome)
      else if Cell(row, pk) !in assign then (ws, Threw(TypeError))
      else (ws + RowWrites(pk, assign, row), Done)
  }

  /** Entity `e`'s properties after the assignments `ws`, starting from `m`. */
  function Applied(m: map<Field, Value>, e: Entity, ws: seq<Write>): map<Field, Value>
    decreases |ws|
  {
    if ws == [] then m
    else
      var w := ws[|ws| - 1];
      var m' := Applied(m, e, ws[..|ws| - 1]);
      if w.item == e then m'[w.field := w.value] else m'
  }

  /** The value of the last assignment in `ws` to property `f` of `e`, if any. */
  function LastWrite(e: Entity, f: Field, ws: seq<Write>): Option<Value>
    decreases |ws|
  {
    if ws == [] then None
    else
      var w := ws[|ws| - 1];
      if w.item == e && w.field == f then Some(w.value) else LastWrite(e, f, ws[..|ws| - 1])
  }

  // ---------------------------------------------------------------------
  // The write-back loop
  // ---------------------------------------------------------------------

  /** Lines 216-222, passing over rows without a registration: assigns the returned values into the entities. */
  method ApplyReturning(pk: Field, assign: map<Value, Registration>, rows: seq<Row>)
    modifies ItemsOf(assign)
    ensures forall e :: e in ItemsOf(assign) ==> e.fields == Applied(old(e.fields), e, Writes(pk, assign, rows))
  {
    ghost var start := map e | e in ItemsOf(assign) :: e.fields;
    var i := 0;
    while i < |rows|
      invariant 0 <= i <= |rows|
      invariant forall e :: e in ItemsOf(assign) ==> e in start && start[e] == old(e.fields)
      invariant forall e :: e in ItemsOf(assign) ==> e.fields == Applied(start[e], e, Writes(pk, assign, rows[..i]))
    {
      assert rows[..i + 1][..i] == rows[..i];
      WriteRow(pk, assign, rows[i], start, Writes(pk, assign, rows[..i]));
      i := i + 1;
    }
    assert rows[..i] == rows;
  }

  /**
   * Lines 217-221 for one returned row: looks up the row's registration and
   * assigns each registered name; `done` and `start` describe the
   * assignments made so far.
   */
  method WriteRow(pk: Field, assign: map<Value, Registration>, row: Row,
                  ghost start: map<Entity, map<Field, Value>>, ghost done: seq<Write>)
    requires forall e :: e in ItemsOf(assign) ==> e in start && e.fields == Applied(start[e], e, done)
    modifies ItemsOf(assign)
    ensures forall e :: e in ItemsOf(assign) ==> e.fields == Applied(start[e], e, done + RowWrites(pk, assign, row))
  {
    var id := Cell(row, pk);
    if id !in assign {
      assert done + RowWrites(pk, assign, row) == done;
      return;
    }
    var r := assign[id];
    assert r.item in ItemsOf(assign);
    var k := 0;
    assert done + NameWrites(r.item, r.names[..0], row) == done;
    while k < |r.names|
      invariant 0 <= k <= |r.names|
      invariant forall e :: e in ItemsOf(assign) ==> e.fields == Applied(start[e], e, done + NameWrites(r.item, r.names[..k], row))
    {
      var name := r.names[k];
      ghost var before := done + NameWrites(r.item, r.names[..k], row);
      ghost var w := Write(r.item, name, Cell(row, name));
      r.item.fields := r.item.fields[name := Cell(row, name)];
      assert r.names[..k + 1][..k] == r.names[..k];
      assert done + NameWrites(r.item, r.names[..k + 1], row) == before + [w];
      forall e | e in ItemsOf(assign)
        ensures e.fields == Applied(start[e], e, before + [w])
      {
        AppliedSnoc(start[e], e, before, w);
      }
      k := k + 1;
    }
    assert r.names[..k] == r.names;
  }

  // ---------------------------------------------------------------------
  // Properties of the write-back
  // ---------------------------------------------------------------------

  /**
   * Only entities of the batch are registered for write-back: each belongs
   * to a change set that increments a field.
   */
  lemma {:induction false} RegisteredItemsInBatch(ctx: Context, cs: seq<ChangeSet>)
    ensures forall e :: e in ItemsOf(Compile(ctx, cs).assign) ==>
      exists i :: 0 <= i < |cs| && cs[i].item == e && cs[i].incDelta.keys != []
  {
    var assign := Compile(ctx, cs).assign;
    CompileAssign(ctx, cs);
    forall e | e in ItemsOf(assign)
      ensures exists i :: 0 <= i < |cs| && cs[i].item == e && cs[i].incDelta.keys != []
    {
      var v :| v in assign && assign[v].item == e;
      ItemOfInBatch(ctx, cs, v);
    }
  }

  /** One more assignment updates its own entity's property and leaves every other entity alone. */
  lemma {:induction false} AppliedSnoc(m: map<Field, Value>, e: Entity, ws: seq<Write>, w: Write)
    ensures Applied(m, e, ws + [w]) == if w.item == e then Applied(m, e, ws)[w.field := w.value] else Applied(m, e, ws)
  {
    assert (ws + [w])[..|ws + [w]| - 1] == ws;
  }

  /**
   * After the assignments `ws`, property `f` of `e` holds the value of the
   * last assignment to it; a property no assignment names keeps its
   * presence and value.
   */
  lemma {:induction false} AppliedLookup(m: map<Field, Value>, e: Entity, ws: seq<Write>, f: Field)
    ensures LastWrite(e, f, ws).Some? ==> f in Applied(m, e, ws) && Applied(m, e, ws)[f] == LastWrite(e, f, ws).value
    ensures LastWrite(e, f, ws).None? ==> (f in Applied(m, e, ws) <==> f in m) && (f in m ==> Applied(m, e, ws)[f] == m[f])
    decreases |ws|
  {
    if ws != [] {
      AppliedLookup(m, e, ws[..|ws| - 1], f);
    }
  }

  /** No assignment to `f` of `e` exists exactly when `LastWrite` finds none. */
  lemma {:induction false} LastWriteNone(e: Entity, f: Field, ws: seq<Write>)
    ensures LastWrite(e, f, ws).None? <==> forall w :: w in ws ==> !(w.item == e && w.field == f)
    decreases |ws|
  {
    if ws != [] {
      var front, w := ws[..|ws| - 1], ws[|ws| - 1];
      LastWriteNone(e, f, front);
      InFrontLast(ws, w);
      forall x | x in ws ensures x in front || x == w {
        InFrontLast(ws, x);
      }
    }
  }

  /** Every assignment of a row's write-back targets the registered entity and one of its registered names, with the row's value. */
  lemma {:induction false} NameWritesTargets(item: Entity, names: seq<Field>, row: Row)
    ensures forall w :: w in NameWrites(item, names, row) ==> w.item == item && w.field in names && w.value == Cell(row, w.field)
    decreases |names|
  {
    if names != [] {
      var front := names[..|names| - 1];
      NameWritesTargets(item, front, row);
      forall x | x in front ensures x in names {
        InFrontLast(names, x);
      }
    }
  }

  /**
   * Every assignment the write-back makes copies a returned row's value of
   * a field registered under that row's primary key into the entity
   * registered with it: only registered `$inc` fields of registered
   * entities are ever written.
   */
  lemma {:induction false} WritesOnlyRegistered(pk: Field, assign: map<Value, Registration>, rows: seq<Row>)
    ensures forall w :: w in Writes(pk, assign, rows) ==>
      exists row :: row in rows && Cell(row, pk) in assign
        && w.item == assign[Cell(row, pk)].item && w.field in assign[Cell(row, pk)].names && w.value == Cell(row, w.field)
    decreases |rows|
  {
    if rows != [] {
      var front, last := rows[..|rows| - 1], rows[|rows| - 1];
      WritesOnlyRegistered(pk, assign, front);
      forall w | w in Writes(pk, assign, rows)
        ensures exists row :: (row in rows && Cell(row, pk) in assign
          && w.item == assign[Cell(row, pk)].item && w.field in assign[Cell(row, pk)].names && w.value == Cell(row, w.field))
      {
        if w in Writes(pk, assign, front) {
          var row :| row in front && Cell(row, pk) in assign
            && w.item == assign[Cell(row, pk)].item && w.field in assign[Cell(row, pk)].names && w.value == Cell(row, w.field);
          InFrontLast(rows, row);
        } else {
          assert w in RowWrites(pk, assign, last);
          var id := Cell(last, pk);
          NameWritesTargets(assign[id].item, assign[id].names, last);
          InFrontLast(rows, last);
        }
      }
    }
  }

  /** A property that no write-back assignment names keeps its value: nothing else of an entity changes. */
  lemma {:induction false} UnwrittenUnchanged(pk: Field, assign: map<Value, Registration>, rows: seq<Row>,
                                              m: map<Field, Value>, e: Entity, f: Field)
    requires forall id :: id in assign && assign[id].item == e ==> f !in assign[id].names
    ensures (f in Applied(m, e, Writes(pk, assign, rows)) <==> f in m)
    ensures f in m ==> Applied(m, e, Writes(pk, assign, rows))[f] == m[f]
  {
    var ws := Writes(pk, assign, rows);
    WritesOnlyRegistered(pk, assign, rows);
    LastWriteNone(e, f, ws);
    AppliedLookup(m, e, ws, f);
  }

  /** The last assignment to `f` of `e` in `a + b` is the last one in `b`, or else the last one in `a`. */
  lemma {:induction false} LastWriteAppend(e: Entity, f: Field, a: seq<Write>, b: seq<Write>)
    ensures LastWrite(e, f, a + b) == if LastWrite(e, f, b).Some? then LastWrite(e, f, b) else LastWrite(e, f, a)
    decreases |b|
  {
    if b == [] {
      assert a + b == a;
    } else {
      assert (a + b)[..|a + b| - 1] == a + b[..|b| - 1];
      LastWriteAppend(e, f, a, b[..|b| - 1]);
    }
  }

  /** A row's write-back assigns each registered name its value in the row. */
  lemma {:induction false} NameWritesLast(item: Entity, names: seq<Field>, row: Row, f: Field)
    requires f in names
    ensures LastWrite(item, f, NameWrites(item, names, row)) == Some(Cell(row, f))
    decreases |names|
  {
    var front := names[..|names| - 1];
    if names[|names| - 1] != f {
      InFrontLast(names, f);
      NameWritesLast(item, front, row, f);
    }
  }

  /**
   * The read-back copies returned values into the entities: when row `k`
   * carries a registered primary key and `f` is one of its registered
   * names, and no later row is registered with the same entity and `f`,
   * the entity's property `f` ends up holding row `k`'s value of `f`.
   */
  lemma {:induction false} RowValueWritten(pk: Field, assign: map<Value, Registration>, rows: seq<Row>,
                                           k: int, f: Field, m: map<Field, Value>)
    requires 0 <= k < |rows| && Cell(rows[k], pk) in assign && f in assign[Cell(rows[k], pk)].names
    requires forall j :: k < j < |rows| && Cell(rows[j], pk) in assign ==>
      !(assign[Cell(rows[j], pk)].item == assign[Cell(rows[k], pk)].item && f in assign[Cell(rows[j], pk)].names)
    ensures LastWrite(assign[Cell(rows[k], pk)].item, f, Writes(pk, assign, rows)) == Some(Cell(rows[k], f))
    ensures var fields := Applied(m, assign[Cell(rows[k], pk)].item, Writes(pk, assign, rows));
      f in fields && fields[f] == Cell(rows[k], f)
    decreases |rows|
  {
    var reg := assign[Cell(rows[k], pk)];
    var front, last := rows[..|rows| - 1], rows[|rows| - 1];
    LastWriteAppend(reg.item, f, Writes(pk, assign, front), RowWrites(pk, assign, last));
    if k == |rows| - 1 {
      NameWritesLast(reg.item, reg.names, last, f);
    } else {
      var id := Cell(last, pk);
      if id in assign {
        NameWritesTargets(assign[id].item, assign[id].names, last);
        LastWriteNone(reg.item, f, RowWrites(pk, assign, last));
      }
      assert front[k] == rows[k];
      forall j | k < j < |front| && Cell(front[j], pk) in assign
        ensures !(assign[Cell(front[j], pk)].item == reg.item && f in assign[Cell(front[j], pk)].names)
      {
        assert front[j] == rows[j];
      }
      RowValueWritten(pk, assign, front, k, f, m);
    }
    AppliedLookup(m, reg.item, Writes(pk, assign, rows), f);
  }

  // ---------------------------------------------------------------------
  // The loop as written against the intended one
  // ---------------------------------------------------------------------

  /**
   * The loop as written finishes exactly when every returned row's primary
   * key is registered, and then makes the intended assignments; when it
   * throws, it has made the intended assignments of the rows before the
   * first unregistered one.
   */
  lemma {:induction false} AsWrittenAgainstIntended(pk: Field, assign: map<Value, Registration>, rows: seq<Row>)
    ensures AsWritten(pk, assign, rows).1 == Done <==> forall row :: row in rows ==> Cell(row, pk) in assign
    ensures AsWritten(pk, assign, rows).1.Threw? ==> AsWritten(pk, assign, rows).1.error == TypeError
    ensures AsWritten(pk, assign, rows).1 == Done ==> AsWritten(pk, assign, rows).0 == Writes(pk, assign, rows)
    ensures exists n :: 0 <= n <= |rows| && AsWritten(pk, assign, rows).0 == Writes(pk, assign, rows[..n])
    decreases |rows|
  {
    if rows == [] {
      assert rows[..0] == rows;
    } else {
      var front, last := rows[..|rows| - 1], rows[|rows| - 1];
      AsWrittenAgainstIntended(pk, assign, front);
      var n :| 0 <= n <= |front| && AsWritten(pk, assign, front).0 == Writes(pk, assign, front[..n]);
      assert front[..n] == rows[..n];
      forall row ensures row in rows <==> row in front || row == last {
        InFrontLast(rows, row);
      }
      if AsWritten(pk, assign, rows).1 == Done {
        assert rows[..|rows|] == rows;
      }
    }
  }

  /** The change sets of the scenario below: primary key 1 increments `count`, primary key 2 sets it. */
  function ScenarioBatch(e1: Entity, e2: Entity): seq<ChangeSet> {
    [ChangeSet(Obj(["id"], map["id" := Num(1)]), Obj([], map[]), Obj(["count"], map["count" := Num(3)]), e1),
     ChangeSet(Obj(["id"], map["id" := Num(2)]), Obj(["count"], map["count" := Num(0)]), Obj([], map[]), e2)]
  }

  /** The rows the staging table returns for the scenario: one per change set. */
  function ScenarioRows(): seq<Row> {
    [map["id" := Num(1), "count" := Num(8)], map["id" := Num(2), "count" := Num(0)]]
  }

  /** In the scenario, primary key 1 carries the `$inc` field `count` and the first entity; no other key carries any. */
  lemma {:induction false} ScenarioNames(ctx: Context, cs: seq<ChangeSet>, e1: Entity, e2: Entity)
    requires ctx.pkName == "id" && cs == ScenarioBatch(e1, e2)
    ensures forall v :: NamesOf(ctx, cs, v) == if v == Num(1) then ["count"] else []
    ensures ItemOf(ctx, cs, Num(1)) == Some(e1)
  {
    var c1, c2 := cs[0], cs[1];
    assert cs[..1] == [c1] && [c1][..0] == [];
    assert Id(ctx, c1) == Num(1) && Id(ctx, c2) == Num(2);
    assert c1.incDelta.keys == ["count"] && c2.incDelta.keys == [] && c1.item == e1;
    forall v ensures NamesOf(ctx, cs, v) == if v == Num(1) then ["count"] else [] {
      assert NamesOf(ctx, [c1][..0], v) == [];
      assert NamesOf(ctx, [c1], v) == if v == Num(1) then ["count"] else [];
      assert NamesOf(ctx, cs, v) == NamesOf(ctx, cs[..1], v) + [];
    }
    assert ItemOf(ctx, [c1][..0], Num(1)) == None;
    assert ItemOf(ctx, [c1], Num(1)) == Some(e1);
  }

  /** When the batch increments fields under one primary key only, `assignReturning` holds that one registration. */
  lemma {:induction false} SingleRegistration(ctx: Context, cs: seq<ChangeSet>, id: Value, item: Entity, names: seq<Field>)
    requires names != [] && forall v :: NamesOf(ctx, cs, v) == if v == id then names else []
    requires ItemOf(ctx, cs, id) == Some(item)
    ensures Compile(ctx, cs).assign == map[id := Registration(item, names)]
  {
    var assign := Compile(ctx, cs).assign;
    CompileAssign(ctx, cs);
    assert assign.Keys == {id} by {
      forall v ensures v in assign <==> v == id {
        assert v in assign <==> NamesOf(ctx, cs, v) != [];
      }
    }
    assert assign[id] == Registration(item, names) by {
      assert NamesAt(Compile(ctx, cs), id) == names;
      assert ItemOf(ctx, cs, id) == Some(assign[id].item);
    }
    SingletonMap(assign, id, Registration(item, names));
  }

  /** Only primary key 1 is registered for write-back in the scenario, with the first entity and `count`. */
  lemma {:induction false} ScenarioRegistration(ctx: Context, cs: seq<ChangeSet>, e1: Entity, e2: Entity)
    requires ctx.pkName == "id" && cs == ScenarioBatch(e1, e2)
    ensures Compile(ctx, cs).assign == map[Num(1) := Registration(e1, ["count"])]
  {
    ScenarioNames(ctx, cs, e1, e2);
    SingleRegistration(ctx, cs, Num(1), e1, ["count"]);
  }

  /** A map with the single key `k`, holding `v`, is the map display `map[k := v]`. */
  lemma {:induction false} SingletonMap<K, V>(m: map<K, V>, k: K, v: V)
    requires m.Keys == {k} && m[k] == v
    ensures m == map[k := v]
  {
  }

  /** The scenario's rows against its registrations: the loop as written throws on the second row, the intended one does not. */
  lemma {:induction false} ScenarioWrites(assign: map<Value, Registration>, e1: Entity)
    requires assign == map[Num(1) := Registration(e1, ["count"])]
    ensures AsWritten("id", assign, ScenarioRows()) == ([Write(e1, "count", Num(8))], Threw(TypeError))
    ensures Writes("id", assign, ScenarioRows()) == [Write(e1, "count", Num(8))]
  {
    var rows := ScenarioRows();
    assert rows[..1] == [rows[0]] && [rows[0]][..0] == [];
    assert Cell(rows[0], "id") == Num(1) && Cell(rows[1], "id") == Num(2) && Num(2) !in assign;
    assert ["count"][..0] == [];
    assert RowWrites("id", assign, rows[0]) == [Write(e1, "count", Num(8))];
  }

  /**
   * The batch `[{id: 1, $inc: {count: 3}}, {id: 2, $set: {count: 0}}]`:
   * the staging table returns a row for each change set, but only primary
   * key 1 is registered. The loop as written assigns `count` of the first
   * entity and then throws on the row of primary key 2; the intended loop
   * makes just that one assignment and finishes.
   */
  lemma {:induction false} UnregisteredRowThrows(ctx: Context, cs: seq<ChangeSet>, e1: Entity, e2: Entity)
    requires ctx.pkName == "id" && cs == ScenarioBatch(e1, e2)
    ensures var assign := Compile(ctx, cs).assign;
      && AsWritten("id", assign, ScenarioRows()) == ([Write(e1, "count", Num(8))], Threw(TypeError))
      && Writes("id", assign, ScenarioRows()) == [Write(e1, "count", Num(8))]
  {
    ScenarioRegistration(ctx, cs, e1, e2);
    ScenarioWrites(Compile(ctx, cs).assign, e1);
  }
}
