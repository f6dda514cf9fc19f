/**
 * The first half of `SQLitePersistence.update`: the walk over the change
 * sets that fills the column-oriented tables from which the staging-table
 * script is later assembled.
 *
 * `Compile` is the specification: a fold over the change sets, one `Step`
 * per change set, itself a fold over the `$set` keys and one over the
 * `$inc` keys. `CompileChangeSets` is the loop the source runs, proved to
 * compute `Compile`. What `Compile` produces is characterised in module
 * UpdateProperties.
 */
module UpdateCompiler {
  import opened Common

  /** The schema facts `update` uses: the primary key's name and the serializer of its class. */
  datatype Context = Context(pkName: Field, serialize: Converter)

  /** One entity's pending change: its primary key object, its `$set` and `$inc` deltas, and the entity itself. */
  datatype ChangeSet = ChangeSet(primaryKey: Obj, setDelta: Obj, incDelta: Obj, item: Entity)

  ghost predicate WellFormedBatch(changeSets: seq<ChangeSet>) {
    forall c :: c in changeSets ==> c.primaryKey.WellFormed() && c.setDelta.WellFormed() && c.incDelta.WellFormed()
  }

  /** The change set's primary-key value. */
  function Id(ctx: Context, c: ChangeSet): Value {
    c.primaryKey.Get(ctx.pkName)
  }

  /**
   * An entry of `aggregateSelects[f]`: the arm `WHEN _.pk = id THEN
   * _origin.f + increment` (the id is interpolated as is, the increment
   * quoted).
   */
  datatype Arm = Arm(id: Value, increment: Literal)

  /** An entry of `assignReturning`: the entity to write back into and the `$inc` fields to copy. */
  datatype Registration = Registration(item: Entity, names: seq<Field>)

  /** The tables `update` fills while it walks the change sets. */
  datatype Compiled = Compiled(
    valueNames: seq<Field>,                // the key order of `values`
    values: map<Field, seq<Literal>>,      // `values`: field to its literals
    setNames: seq<Field>,                  // `setNames`: the field of each clause `f = _b.f`
    aggregates: map<Field, seq<Arm>>,      // `aggregateSelects`
    required: seq<Field>,                  // the key order of `requiredFields`
    assign: map<Value, Registration>,      // `assignReturning`, by primary key
    setReturning: set<Field>)              // the keys of `setReturning`

  const Empty := Compiled([], map[], [], map[], [], map[], {})

  /** The literal list of field `f`, empty when there is no list yet. */
  function ValuesAt(st: Compiled, f: Field): seq<Literal> {
    if f in st.values then st.values[f] else []
  }

  /** The CASE arms of field `f`, empty when there is no list yet. */
  function ArmsAt(st: Compiled, f: Field): seq<Arm> {
    if f in st.aggregates then st.aggregates[f] else []
  }

  /** The field names registered under primary key `id`, empty when `id` is not registered. */
  function NamesAt(st: Compiled, id: Value): seq<Field> {
    if id in st.assign then st.assign[id].names else []
  }

  /** Appends `lit` to the literal list of field `f`. */
  function Push(st: Compiled, f: Field, lit: Literal): Compiled {
    st.(values := st.values[f := ValuesAt(st, f) + [lit]])
  }

  /** The first time field `f` is met, it gets an empty literal list and a SET clause copying it from the staging table. */
  function AddColumn(st: Compiled, f: Field): Compiled {
    if f in st.values then st
    else st.(valueNames := st.valueNames + [f], values := st.values[f := []], setNames := st.setNames + [f])
  }

  /**
   * Lines 115-123: every key of the primary key object becomes required,
   * and the primary-key column receives the quoted primary key.
   */
  function PkStep(ctx: Context, st: Compiled, c: ChangeSet): Compiled {
    var st1 := st.(required := Extend(st.required, c.primaryKey.keys));
    var st2 :=
      if ctx.pkName in st1.values then st1
      else st1.(valueNames := st1.valueNames + [ctx.pkName], values := st1.values[ctx.pkName := []]);
    Push(st2, ctx.pkName, Quote(Id(ctx, c)))
  }

  /** Lines 131-138: one `$set` field of change set `c`; `added` is `fieldAddedToValues`. */
  function SetField(ctx: Context, st: Compiled, added: set<Field>, c: ChangeSet, f: Field): (Compiled, set<Field>) {
    var st1 := AddColumn(st, f);
    var st2 := st1.(required := AddKey(st1.required, f));
    (Push(st2, f, Quote(ctx.serialize(f, c.setDelta.Get(f)))), added + {f})
  }

  /** Line 146: the first time field `f` is incremented, it gets an empty list of CASE arms. */
  function AddAggregate(st: Compiled, f: Field): Compiled {
    if f in st.aggregates then st else st.(aggregates := st.aggregates[f := []])
  }

  /** Lines 153-157: registers field `f` under `id`, creating the entry with `item` the first time. */
  function Register(st: Compiled, id: Value, item: Entity, f: Field): Compiled {
    var reg := if id in st.assign then st.assign[id] else Registration(item, []);
    st.(assign := st.assign[id := reg.(names := reg.names + [f])])
  }

  /** Lines 144-165: one `$inc` field of change set `c`. */
  function IncField(ctx: Context, st: Compiled, added: set<Field>, c: ChangeSet, f: Field): (Compiled, set<Field>) {
    var id := Id(ctx, c);
    var st1 := Register(AddColumn(AddAggregate(st, f), f), id, c.item, f);
    var st2 := st1.(setReturning := st1.setReturning + {f},
                    aggregates := st1.aggregates[f := ArmsAt(st1, f) + [Arm(id, Quote(c.incDelta.Get(f)))]]);
    var st3 := st2.(required := AddKey(st2.required, f));
    if f in added then (st3, added) else (Push(st3, f, Quote(Null)), added + {f})
  }

  /** The `$set` loop over the keys `ks`. */
  function SetLoop(ctx: Context, st: Compiled, added: set<Field>, c: ChangeSet, ks: seq<Field>): (Compiled, set<Field>)
    decreases |ks|
  {
    if ks == [] then (st, added)
    else
      var (st', added') := SetLoop(ctx, st, added, c, ks[..|ks| - 1]);
      SetField(ctx, st', added', c, ks[|ks| - 1])
  }

  /** The `$inc` loop over the keys `ks`. */
  function IncLoop(ctx: Context, st: Compiled, added: set<Field>, c: ChangeSet, ks: seq<Field>): (Compiled, set<Field>)
    decreases |ks|
  {
    if ks == [] then (st, added)
    else
      var (st', added') := IncLoop(ctx, st, added, c, ks[..|ks| - 1]);
      IncField(ctx, st', added', c, ks[|ks| - 1])
  }

  /** One iteration of the loop at line 112. */
  function Step(ctx: Context, st: Compiled, c: ChangeSet): Compiled {
    var st1 := PkStep(ctx, st, c);
    var (st2, added) := SetLoop(ctx, st1, {}, c, c.setDelta.keys);
    IncLoop(ctx, st2, added, c, c.incDelta.keys).0
  }

  /** The tables after the loop at line 112 has walked `changeSets`. */
  function Compile(ctx: Context, changeSets: seq<ChangeSet>): Compiled
    decreases |changeSets|
  {
    if changeSets == [] then Empty
    else Step(ctx, Compile(ctx, changeSets[..|changeSets| - 1]), changeSets[|changeSets| - 1])
  }

  /** Lines 104-168 of `update`, as the source runs them. */
  method CompileChangeSets(ctx: Context, changeSets: seq<ChangeSet>) returns (st: Compiled)
    ensures st == Compile(ctx, changeSets)
  {
    st := Empty;
    var n := 0;
    while n < |changeSets|
      invariant 0 <= n <= |changeSets|
      invariant st == Compile(ctx, changeSets[..n])
    {
      st := CompileChangeSet(ctx, st, changeSets[n]);
      assert changeSets[..n + 1][..n] == changeSets[..n];
      n := n + 1;
    }
    assert changeSets[..n] == changeSets;
  }

  /** The body of the loop at line 112, for change set `c`. */
  method CompileChangeSet(ctx: Context, st0: Compiled, c: ChangeSet) returns (st: Compiled)
    ensures st == Step(ctx, st0, c)
  {
    st := st0;
    // the primary key object's keys become required fields
    var pkKeys := c.primaryKey.keys;
    var k := 0;
    while k < |pkKeys|
      invariant 0 <= k <= |pkKeys|
      invariant st == st0.(required := Extend(st0.required, pkKeys[..k]))
    {
      if pkKeys[k] !in st.required {
        st := st.(required := st.required + [pkKeys[k]]);
      }
      assert pkKeys[..k + 1][..k] == pkKeys[..k];
      k := k + 1;
    }
    assert pkKeys[..k] == pkKeys;

    if ctx.pkName !in st.values {
      st := st.(values := st.values[ctx.pkName := []], valueNames := st.valueNames + [ctx.pkName]);
    }
    st := st.(values := st.values[ctx.pkName := st.values[ctx.pkName] + [Quote(c.primaryKey.Get(ctx.pkName))]]);
    assert st == PkStep(ctx, st0, c);

    var added;
    st, added := AddSetFields(ctx, st, c);
    st, added := AddIncFields(ctx, st, added, c);
  }

  /** Lines 128-140: the `$set` fields of change set `c`. */
  method AddSetFields(ctx: Context, st0: Compiled, c: ChangeSet) returns (st: Compiled, added: set<Field>)
    ensures (st, added) == SetLoop(ctx, st0, {}, c, c.setDelta.keys)
  {
    st, added := st0, {};
    var setKeys := c.setDelta.keys;
    var i := 0;
    while i < |setKeys|
      invariant 0 <= i <= |setKeys|
      invariant (st, added) == SetLoop(ctx, st0, {}, c, setKeys[..i])
    {
      st, added := AddSetField(ctx, st, added, c, setKeys[i]);
      assert setKeys[..i + 1][..i] == setKeys[..i];
      i := i + 1;
    }
    assert setKeys[..i] == setKeys;
  }

  /** Lines 131-138: the `$set` field `f` of change set `c`. */
  method AddSetField(ctx: Context, st0: Compiled, added0: set<Field>, c: ChangeSet, f: Field)
    returns (st: Compiled, added: set<Field>)
    ensures (st, added) == SetField(ctx, st0, added0, c, f)
  {
    st := st0;
    if f !in st.values {
      st := st.(values := st.values[f := []], valueNames := st.valueNames + [f], setNames := st.setNames + [f]);
    }
    if f !in st.required {
      st := st.(required := st.required + [f]);
    }
    added := added0 + {f};
    st := st.(values := st.values[f := st.values[f] + [Quote(ctx.serialize(f, c.setDelta.Get(f)))]]);
  }

  /** Lines 142-167: the `$inc` fields of change set `c`. */
  method AddIncFields(ctx: Context, st0: Compiled, added0: set<Field>, c: ChangeSet) returns (st: Compiled, added: set<Field>)
    ensures (st, added) == IncLoop(ctx, st0, added0, c, c.incDelta.keys)
  {
    st, added := st0, added0;
    var incKeys := c.incDelta.keys;
    var i := 0;
    while i < |incKeys|
      invariant 0 <= i <= |incKeys|
      invariant (st, added) == IncLoop(ctx, st0, added0, c, incKeys[..i])
    {
      st, added := AddIncField(ctx, st, added, c, incKeys[i]);
      assert incKeys[..i + 1][..i] == incKeys[..i];
      i := i + 1;
    }
    assert incKeys[..i] == incKeys;
  }

  /** Lines 145-165: the `$inc` field `f` of change set `c`. */
  method AddIncField(ctx: Context, st0: Compiled, added0: set<Field>, c: ChangeSet, f: Field)
    returns (st: Compiled, added: set<Field>)
    ensures (st, added) == IncField(ctx, st0, added0, c, f)
  {
    st, added := st0, added0;
    var id := c.primaryKey.Get(ctx.pkName);
    if f !in st.aggregates {
      st := st.(aggregates := st.aggregates[f := []]);
    }
    if f !in st.values {
      st := st.(values := st.values[f := []], valueNames := st.valueNames + [f], setNames := st.setNames + [f]);
    }
    assert st == AddColumn(AddAggregate(st0, f), f);
    if id !in st.assign {
      st := st.(assign := st.assign[id := Registration(c.item, [])]);
    }
    st := st.(assign := st.assign[id := st.assign[id].(names := st.assign[id].names + [f])]);
    assert st == Register(AddColumn(AddAggregate(st0, f), f), id, c.item, f);
    st := st.(setReturning := st.setReturning + {f});
    st := st.(aggregates := st.aggregates[f := st.aggregates[f] + [Arm(id, Quote(c.incDelta.Get(f)))]]);
    if f !in st.required {
      st := st.(required := st.required + [f]);
    }
    if f !in added {
      added := added + {f};
      st := st.(values := st.values[f := st.values[f] + [Quote(Null)]]);
    }
  }
}
