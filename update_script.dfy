/**
 * The second half of `SQLitePersistence.update` before execution: turning
 * the compiled tables into the staging-table script. The VALUES list is
 * built column-wise: row `i` reads entry `i` of every field's literal
 * list, and a list shorter than the primary key's yields JavaScript
 * `undefined` at that position. A row cell is therefore an `Option`:
 * `None` is such a hole.
 *
 * `ScriptOf` is the specification, `AssembleScript` the loops the source
 * runs; the lemmas say what the script is for a batch of change sets.
 */
module UpdateScript {
  import opened Common
  import opened UpdateCompiler
  import opened UpdateProperties

  /** `column<j> as <name>`: SQLite names the VALUES columns `column1`, `column2`, ... */
  datatype Rename = Rename(column: nat, name: Field)

  /**
   * One item of the staging select: `_.f`, or
   * `CASE WHEN _.pk = id THEN _origin.f + inc ... ELSE _.f END as f`
   * with one WHEN per arm, in order.
   */
  datatype StagingColumn = PassThrough(field: Field) | CaseOf(field: Field, arms: seq<Arm>)

  /** The staging-table script: column renames, VALUES rows, staging selects and SET clauses. */
  datatype Script = Script(
    renames: seq<Rename>,
    rows: seq<seq<Option<Literal>>>,
    selects: seq<StagingColumn>,
    setNames: seq<Field>)

  /** Entry `i` of field `f`'s literal list: `None` past the list's end, where JavaScript reads `undefined`. */
  function ValueCell(st: Compiled, f: Field, i: nat): Option<Literal> {
    if f in st.values && i < |st.values[f]| then Some(st.values[f][i]) else None
  }

  /** The renames of the VALUES columns: the k-th column, numbered from 1, is renamed to the k-th name. */
  function Renames(names: seq<Field>): seq<Rename>
    decreases |names|
  {
    if names == [] then [] else Renames(names[..|names| - 1]) + [Rename(|names|, names[|names| - 1])]
  }

  /** Entry `i` of the lists of `names`, in order. */
  function Cells(st: Compiled, names: seq<Field>, i: nat): seq<Option<Literal>>
    decreases |names|
  {
    if names == [] then [] else Cells(st, names[..|names| - 1], i) + [ValueCell(st, names[|names| - 1], i)]
  }

  /** Row `i` of the VALUES list: entry `i` of every column, in column order. */
  function RowOf(st: Compiled, i: nat): seq<Option<Literal>> {
    Cells(st, st.valueNames, i)
  }

  /** The first `n` rows of the VALUES list. */
  function Rows(st: Compiled, n: nat): seq<seq<Option<Literal>>>
    decreases n
  {
    if n == 0 then [] else Rows(st, n - 1) + [RowOf(st, n - 1)]
  }

  /** The staging select of a required field: a CASE when it has increments, `_.f` otherwise. */
  function SelectOf(st: Compiled, f: Field): StagingColumn {
    if f in st.aggregates then CaseOf(f, st.aggregates[f]) else PassThrough(f)
  }

  /** The staging selects of `fields`, in order. */
  function Selects(st: Compiled, fields: seq<Field>): seq<StagingColumn>
    decreases |fields|
  {
    if fields == [] then [] else Selects(st, fields[..|fields| - 1]) + [SelectOf(st, fields[|fields| - 1])]
  }

  /**
   * The script for the compiled tables: one row per entry of the primary
   * key's list; `TypeError` when there is no such list (`values[pkName]`
   * is `undefined`, an empty batch).
   */
  function ScriptOf(ctx: Context, st: Compiled): Result<Script> {
    if ctx.pkName !in st.values then Err(TypeError)
    else Ok(Script(Renames(st.valueNames), Rows(st, |st.values[ctx.pkName]|), Selects(st, st.required), st.setNames))
  }

  /** Column `k` is renamed from `column<k+1>`. */
  lemma {:induction false} RenamesNumbered(names: seq<Field>)
    ensures |Renames(names)| == |names|
    ensures forall k :: 0 <= k < |names| ==> Renames(names)[k] == Rename(k + 1, names[k])
    decreases |names|
  {
    if names != [] {
      RenamesNumbered(names[..|names| - 1]);
    }
  }

  /** Cell `k` of a row is entry `i` of the `k`-th column's list. */
  lemma {:induction false} CellsIndexed(st: Compiled, names: seq<Field>, i: nat)
    ensures |Cells(st, names, i)| == |names|
    ensures forall k :: 0 <= k < |names| ==> Cells(st, names, i)[k] == ValueCell(st, names[k], i)
    decreases |names|
  {
    if names != [] {
      CellsIndexed(st, names[..|names| - 1], i);
    }
  }

  /** `Rows(st, n)` has `n` rows, row `i` being `RowOf(st, i)`. */
  lemma {:induction false} RowsIndexed(st: Compiled, n: nat)
    ensures |Rows(st, n)| == n
    ensures forall i :: 0 <= i < n ==> Rows(st, n)[i] == RowOf(st, i)
    decreases n
  {
    if n > 0 {
      RowsIndexed(st, n - 1);
    }
  }

  /** Select `k` is the select of the `k`-th field. */
  lemma {:induction false} SelectsIndexed(st: Compiled, fields: seq<Field>)
    ensures |Selects(st, fields)| == |fields|
    ensures forall k :: 0 <= k < |fields| ==> Selects(st, fields)[k] == SelectOf(st, fields[k])
    decreases |fields|
  {
    if fields != [] {
      SelectsIndexed(st, fields[..|fields| - 1]);
    }
  }

  /** Lines 170-197: the renames, the VALUES rows and the staging selects, as the source builds them. */
  method AssembleScript(ctx: Context, st: Compiled) returns (r: Result<Script>)
    ensures r == ScriptOf(ctx, st)
  {
    var renames: seq<Rename> := [];
    var j := 1;
    while j <= |st.valueNames|
      invariant 1 <= j <= |st.valueNames| + 1
      invariant renames == Renames(st.valueNames[..j - 1])
    {
      renames := renames + [Rename(j, st.valueNames[j - 1])];
      assert st.valueNames[..j][..j - 1] == st.valueNames[..j - 1];
      j := j + 1;
    }
    assert st.valueNames[..j - 1] == st.valueNames;

    if ctx.pkName !in st.values {
      return Err(TypeError);
    }
    var rowCount := |st.values[ctx.pkName]|;
    var rows: seq<seq<Option<Literal>>> := [];
    var i := 0;
    while i < rowCount
      invariant 0 <= i <= rowCount
      invariant rows == Rows(st, i)
    {
      var row := BuildRow(st, i);
      rows := rows + [row];
      i := i + 1;
    }

    var selects: seq<StagingColumn> := [];
    var k := 0;
    while k < |st.required|
      invariant 0 <= k <= |st.required|
      invariant selects == Selects(st, st.required[..k])
    {
      var f := st.required[k];
      if f in st.aggregates {
        selects := selects + [CaseOf(f, st.aggregates[f])];
      } else {
        selects := selects + [PassThrough(f)];
      }
      assert st.required[..k + 1][..k] == st.required[..k];
      k := k + 1;
    }
    assert st.required[..k] == st.required;
    r := Ok(Script(renames, rows, selects, st.setNames));
  }

  /** Line 182: row `i` of the VALUES list, entry `i` of each column's literal list in column order. */
  method BuildRow(st: Compiled, i: nat) returns (row: seq<Option<Literal>>)
    ensures row == RowOf(st, i)
  {
    row := [];
    var k := 0;
    while k < |st.valueNames|
      invariant 0 <= k <= |st.valueNames|
      invariant row == Cells(st, st.valueNames[..k], i)
    {
      var f := st.valueNames[k];
      if f in st.values && i < |st.values[f]| {
        row := row + [Some(st.values[f][i])];
      } else {
        row := row + [None];
      }
      assert st.valueNames[..k + 1][..k] == st.valueNames[..k];
      k := k + 1;
    }
    assert st.valueNames[..k] == st.valueNames;
  }

  // ---------------------------------------------------------------------
  // The script of a batch
  // ---------------------------------------------------------------------

  /** The script exists exactly when the batch is non-empty; an empty batch throws a `TypeError`. */
  lemma {:induction false} ScriptIffNonEmpty(ctx: Context, cs: seq<ChangeSet>)
    ensures ScriptOf(ctx, Compile(ctx, cs)).Ok? <==> cs != []
    ensures cs == [] ==> ScriptOf(ctx, Compile(ctx, cs)) == Err(TypeError)
  {
    CompileColumns(ctx, cs);
    FieldStreamMembers(ctx, cs);
    ExtendProperties([], FieldStream(ctx, cs));
    if cs != [] {
      assert ctx.pkName in FieldStream(ctx, cs);
    }
  }

  /**
   * When no change set names the primary key in `$set` or `$inc`, the
   * VALUES list has exactly one row per change set, and row `i` starts
   * with the primary key of change set `i`.
   */
  lemma {:induction false} OneRowPerChangeSet(ctx: Context, cs: seq<ChangeSet>)
    requires WellFormedBatch(cs) && cs != []
    requires forall i :: 0 <= i < |cs| ==> !Touches(cs[i], ctx.pkName)
    ensures var r := ScriptOf(ctx, Compile(ctx, cs));
      && r.Ok?
      && |r.value.rows| == |cs|
      && forall i :: 0 <= i < |cs| ==> |r.value.rows[i]| > 0 && r.value.rows[i][0] == Some(Quote(Id(ctx, cs[i])))
  {
    var st := Compile(ctx, cs);
    ScriptIffNonEmpty(ctx, cs);
    CompileColumns(ctx, cs);
    CompileValues(ctx, cs);
    PrimaryKeyColumnOnePerChangeSet(ctx, cs);
    FirstColumnRows(ctx, st, ColumnOf(ctx, cs, ctx.pkName));
  }

  /** The rows of shaped tables start with the primary key's list, entry by entry. */
  lemma {:induction false} FirstColumnRows(ctx: Context, st: Compiled, column: seq<Literal>)
    requires ColumnsShaped(ctx, st) && ctx.pkName in st.values
    requires ValuesAt(st, ctx.pkName) == column
    ensures ScriptOf(ctx, st).Ok? && |ScriptOf(ctx, st).value.rows| == |column|
    ensures forall i :: 0 <= i < |column| ==>
      |ScriptOf(ctx, st).value.rows[i]| > 0 && ScriptOf(ctx, st).value.rows[i][0] == Some(column[i])
  {
    assert st.valueNames[0] == ctx.pkName;
    RowsIndexed(st, |column|);
    forall i | 0 <= i < |column| ensures |RowOf(st, i)| > 0 && RowOf(st, i)[0] == Some(column[i]) {
      CellsIndexed(st, st.valueNames, i);
    }
  }

  /**
   * The script has one row per change set, and cell `k` of row `i` is what
   * change set `i` staged for the `k`-th column: its primary key first,
   * then its literal for each SET clause field.
   */
  ghost predicate RowsAligned(ctx: Context, cs: seq<ChangeSet>, st: Compiled) {
    var r := ScriptOf(ctx, st);
    && r.Ok?
    && |r.value.rows| == |cs|
    && forall i, k :: 0 <= i < |cs| && 0 <= k < |st.valueNames| ==>
         |r.value.rows[i]| == |st.valueNames|
         && r.value.rows[i][k] == Some(if k == 0 then Quote(Id(ctx, cs[i])) else FieldLiteral(ctx, cs[i], st.valueNames[k]))
  }

  /**
   * When every change set names the same fields (and not the primary key),
   * the columns stay aligned: cell `k` of row `i` is what change set `i`
   * staged for the `k`-th column.
   */
  lemma {:induction false} UniformBatchAligned(ctx: Context, cs: seq<ChangeSet>)
    requires WellFormedBatch(cs) && cs != []
    requires forall i :: 0 <= i < |cs| ==> !Touches(cs[i], ctx.pkName)
    requires forall i, f :: 0 <= i < |cs| ==> (Touches(cs[i], f) <==> Touches(cs[0], f))
    ensures RowsAligned(ctx, cs, Compile(ctx, cs))
  {
    var st := Compile(ctx, cs);
    BatchColumns(ctx, cs, st);
    AlignedRows(ctx, cs, st);
  }

  /** What `Compile` yields for a non-empty batch that never names the primary key, stated about the tables themselves. */
  lemma {:induction false} BatchColumns(ctx: Context, cs: seq<ChangeSet>, st: Compiled)
    requires st == Compile(ctx, cs)
    requires WellFormedBatch(cs) && cs != []
    requires forall i :: 0 <= i < |cs| ==> !Touches(cs[i], ctx.pkName)
    ensures ColumnsShaped(ctx, st) && ctx.pkName in st.values
    ensures forall f :: ValuesAt(st, f) == ColumnOf(ctx, cs, f)
    ensures forall f :: f in st.setNames <==> f != ctx.pkName && exists i :: 0 <= i < |cs| && Touches(cs[i], f)
    ensures |ColumnOf(ctx, cs, ctx.pkName)| == |cs|
    ensures forall i :: 0 <= i < |cs| ==> ColumnOf(ctx, cs, ctx.pkName)[i] == Quote(Id(ctx, cs[i]))
  {
    ScriptIffNonEmpty(ctx, cs);
    CompileColumns(ctx, cs);
    CompileValues(ctx, cs);
    SetClausesOnePerField(ctx, cs);
    PrimaryKeyColumnOnePerChangeSet(ctx, cs);
  }

  /** `UniformBatchAligned` for any shaped tables whose lists are the batch's columns. */
  lemma {:induction false} AlignedRows(ctx: Context, cs: seq<ChangeSet>, st: Compiled)
    requires cs != [] && ColumnsShaped(ctx, st) && ctx.pkName in st.values
    requires forall f :: ValuesAt(st, f) == ColumnOf(ctx, cs, f)
    requires forall f :: f in st.setNames <==> f != ctx.pkName && exists i :: 0 <= i < |cs| && Touches(cs[i], f)
    requires |ColumnOf(ctx, cs, ctx.pkName)| == |cs|
    requires forall i :: 0 <= i < |cs| ==> ColumnOf(ctx, cs, ctx.pkName)[i] == Quote(Id(ctx, cs[i]))
    requires forall i, f :: 0 <= i < |cs| ==> (Touches(cs[i], f) <==> Touches(cs[0], f))
    ensures RowsAligned(ctx, cs, st)
  {
    assert st.valueNames[0] == ctx.pkName;
    RowsIndexed(st, |cs|);
    forall i | 0 <= i < |cs| {
      CellsIndexed(st, st.valueNames, i);
    }
    forall i, k | 0 <= i < |cs| && 0 <= k < |st.valueNames|
      ensures ValueCell(st, st.valueNames[k], i)
              == Some(if k == 0 then Quote(Id(ctx, cs[i])) else FieldLiteral(ctx, cs[i], st.valueNames[k]))
    {
      var f := st.valueNames[k];
      if k > 0 {
        assert f == st.setNames[k - 1];
        assert f in st.setNames;
        var m :| 0 <= m < |cs| && Touches(cs[m], f);
        assert Touches(cs[0], f);
        forall n | 0 <= n < |cs| ensures Touches(cs[n], f) {
          assert Touches(cs[n], f) <==> Touches(cs[0], f);
        }
        UniformColumn(ctx, cs, f);
      }
    }
  }

  /**
   * The misalignment of line 182: when some change set names field `f`
   * and another does not, `f`'s list is shorter than the primary key's,
   * and the last row reads `undefined` in `f`'s column.
   */
  lemma {:induction false} MixedBatchLeavesHole(ctx: Context, cs: seq<ChangeSet>, f: Field, with: int, without: int)
    requires WellFormedBatch(cs)
    requires forall i :: 0 <= i < |cs| ==> !Touches(cs[i], ctx.pkName)
    requires 0 <= with < |cs| && Touches(cs[with], f)
    requires 0 <= without < |cs| && !Touches(cs[without], f)
    ensures var r := ScriptOf(ctx, Compile(ctx, cs));
      var names := Compile(ctx, cs).valueNames;
      && r.Ok?
      && |r.value.rows| == |cs|
      && (exists k :: 0 <= k < |names| && names[k] == f && |r.value.rows[|cs| - 1]| == |names| && r.value.rows[|cs| - 1][k] == None)
  {
    var st := Compile(ctx, cs);
    var r := ScriptOf(ctx, st);
    assert && r.Ok?
           && |r.value.rows| == |cs|
           && (exists k :: 0 <= k < |st.valueNames| && st.valueNames[k] == f && |r.value.rows[|cs| - 1]| == |st.valueNames|
                 && r.value.rows[|cs| - 1][k] == None)
    by {
      ScriptIffNonEmpty(ctx, cs);
      CompileColumns(ctx, cs);
      CompileValues(ctx, cs);
      SetClausesOnePerField(ctx, cs);
      PrimaryKeyColumnOnePerChangeSet(ctx, cs);
      ColumnLength(ctx, cs, f);
      TouchCountBelow(cs, f, without);
      HoleInLastRow(ctx, cs, st, f);
    }
  }

  /** `MixedBatchLeavesHole` for any shaped tables with a row per change set and a short list for `f`. */
  lemma {:induction false} HoleInLastRow(ctx: Context, cs: seq<ChangeSet>, st: Compiled, f: Field)
    requires ColumnsShaped(ctx, st) && ctx.pkName in st.values && f in st.setNames
    requires |ValuesAt(st, ctx.pkName)| == |cs|
    requires |ValuesAt(st, f)| < |cs|
    ensures var r := ScriptOf(ctx, st);
      && r.Ok?
      && |r.value.rows| == |cs|
      && (exists k :: 0 <= k < |st.valueNames| && st.valueNames[k] == f && |r.value.rows[|cs| - 1]| == |st.valueNames|
            && r.value.rows[|cs| - 1][k] == None)
  {
    var k :| 0 <= k < |st.setNames| && st.setNames[k] == f;
    assert st.valueNames[k + 1] == f;
    assert ValueCell(st, f, |cs| - 1) == None;
    RowsIndexed(st, |cs|);
    CellsIndexed(st, st.valueNames, |cs| - 1);
    assert ScriptOf(ctx, st).value.rows[|cs| - 1][k + 1] == None;
  }

  /**
   * The staging selects follow the required fields in order of first
   * appearance; an incremented field becomes a CASE with one WHEN per
   * incrementing change set, in order, and every other field passes
   * through.
   */
  lemma {:induction false} StagingSelects(ctx: Context, cs: seq<ChangeSet>)
    requires WellFormedBatch(cs) && cs != []
    ensures var r := ScriptOf(ctx, Compile(ctx, cs));
      var required := Compile(ctx, cs).required;
      && r.Ok?
      && required == Extend([], RequiredStream(cs))
      && |r.value.selects| == |required|
      && forall k :: 0 <= k < |required| ==>
           r.value.selects[k]
           == if ArmsOf(ctx, cs, required[k]) != [] then CaseOf(required[k], ArmsOf(ctx, cs, required[k]))
              else PassThrough(required[k])
  {
    ScriptIffNonEmpty(ctx, cs);
    CompileArms(ctx, cs);
    CompileRest(ctx, cs);
    SelectsIndexed(Compile(ctx, cs), Compile(ctx, cs).required);
  }
}
