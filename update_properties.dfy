/**
 * What the walk over the change sets in `SQLitePersistence.update`
 * produces, stated against reference definitions that say per field and
 * per change set what ends up in each table:
 *
 *  - the literal list of a field is the concatenation, over the change
 *    sets in order, of what each contributes to it (`ColumnOf`);
 *  - the CASE arms of a field are one per change set incrementing it
 *    (`ArmsOf`);
 *  - the VALUES columns, SET clauses and required fields are the fields in
 *    order of first appearance (`Extend` of a stream of keys);
 *  - the write-back registrations are per primary key (`NamesOf`, `ItemOf`).
 */
module UpdateProperties {
  import opened Common
  import opened UpdateCompiler

  /** Change set `c` names field `f` in its `$set` or its `$inc`. */
  predicate Touches(c: ChangeSet, f: Field) {
    f in c.setDelta.keys || f in c.incDelta.keys
  }

  /** The literal `c` stages for a field it touches: its serialized `$set` value, else `NULL`. */
  function FieldLiteral(ctx: Context, c: ChangeSet, f: Field): Literal {
    if f in c.setDelta.keys then Quote(ctx.serialize(f, c.setDelta.Get(f))) else Quote(Null)
  }

  /** The literals change set `c` adds to the list of field `f`. */
  function Contribution(ctx: Context, c: ChangeSet, f: Field): seq<Literal> {
    (if f == ctx.pkName then [Quote(Id(ctx, c))] else [])
      + (if Touches(c, f) then [FieldLiteral(ctx, c, f)] else [])
  }

  function ColumnOf(ctx: Context, cs: seq<ChangeSet>, f: Field): seq<Literal>
    decreases |cs|
  {
    if cs == [] then [] else ColumnOf(ctx, cs[..|cs| - 1], f) + Contribution(ctx, cs[|cs| - 1], f)
  }

  /** The CASE arm change set `c` contributes to field `f`: one when it increments `f`. */
  function ArmOf(ctx: Context, c: ChangeSet, f: Field): seq<Arm> {
    if f in c.incDelta.keys then [Arm(Id(ctx, c), Quote(c.incDelta.Get(f)))] else []
  }

  function ArmsOf(ctx: Context, cs: seq<ChangeSet>, f: Field): seq<Arm>
    decreases |cs|
  {
    if cs == [] then [] else ArmsOf(ctx, cs[..|cs| - 1], f) + ArmOf(ctx, cs[|cs| - 1], f)
  }

  /** The fields in the order `update` meets them when it fills `values`. */
  function FieldStream(ctx: Context, cs: seq<ChangeSet>): seq<Field>
    decreases |cs|
  {
    if cs == [] then []
    else
      var c := cs[|cs| - 1];
      FieldStream(ctx, cs[..|cs| - 1]) + ([ctx.pkName] + c.setDelta.keys + c.incDelta.keys)
  }

  /** The fields in the order `update` meets them when it fills `requiredFields`. */
  function RequiredStream(cs: seq<ChangeSet>): seq<Field>
    decreases |cs|
  {
    if cs == [] then []
    else
      var c := cs[|cs| - 1];
      RequiredStream(cs[..|cs| - 1]) + (c.primaryKey.keys + c.setDelta.keys + c.incDelta.keys)
  }

  /** The `$inc` fields of every change set whose primary key is `id`, in order. */
  function NamesOf(ctx: Context, cs: seq<ChangeSet>, id: Value): seq<Field>
    decreases |cs|
  {
    if cs == [] then []
    else
      var c := cs[|cs| - 1];
      NamesOf(ctx, cs[..|cs| - 1], id) + (if Id(ctx, c) == id then c.incDelta.keys else [])
  }

  /** The entity of the first change set with primary key `id` that increments something. */
  function ItemOf(ctx: Context, cs: seq<ChangeSet>, id: Value): Option<Entity>
    decreases |cs|
  {
    if cs == [] then None
    else
      var c := cs[|cs| - 1];
      var prev := ItemOf(ctx, cs[..|cs| - 1], id);
      if prev.Some? then prev
      else if Id(ctx, c) == id && c.incDelta.keys != [] then Some(c.item)
      else None
  }

  /** The entity registered for `id` is that of a change set with primary key `id` that increments something. */
  lemma {:induction false} ItemOfInBatch(ctx: Context, cs: seq<ChangeSet>, id: Value)
    ensures ItemOf(ctx, cs, id).Some? ==>
      exists i :: 0 <= i < |cs| && cs[i].item == ItemOf(ctx, cs, id).value && Id(ctx, cs[i]) == id && cs[i].incDelta.keys != []
    decreases |cs|
  {
    if cs != [] {
      var front := cs[..|cs| - 1];
      ItemOfInBatch(ctx, front, id);
      if ItemOf(ctx, front, id).Some? {
        var i :| 0 <= i < |front| && front[i].item == ItemOf(ctx, front, id).value && Id(ctx, front[i]) == id && front[i].incDelta.keys != [];
        assert cs[i] == front[i];
      }
    }
  }

  /** Every field some change set increments. */
  function IncFieldsOf(cs: seq<ChangeSet>): set<Field>
    decreases |cs|
  {
    if cs == [] then {} else IncFieldsOf(cs[..|cs| - 1]) + KeySet(cs[|cs| - 1].incDelta.keys)
  }

  /**
   * The shape of `values` and `setNames`: `values` has exactly the keys of
   * its key order, and that order is the primary key followed by the SET
   * clause fields (or both are still empty).
   */
  ghost predicate ColumnsShaped(ctx: Context, st: Compiled) {
    && (forall f :: f in st.values <==> f in st.valueNames)
    && ((st.valueNames == [] && st.setNames == []) || st.valueNames == [ctx.pkName] + st.setNames)
  }

  // ---------------------------------------------------------------------
  // One `$set` field and the `$set` loop
  // ---------------------------------------------------------------------

  /** One step that may add key `x`: a new `values` key is a new SET clause, an existing one changes nothing. */
  ghost predicate ColumnStep(st: Compiled, st': Compiled, x: Field) {
    && st'.valueNames == (if x in st.values then st.valueNames else st.valueNames + [x])
    && st'.setNames == (if x in st.values then st.setNames else st.setNames + [x])
    && st'.values.Keys == st.values.Keys + {x}
  }

  /** After adding the keys `ks`: they extend the key order, and every new key is a new SET clause, in order. */
  ghost predicate ColumnsExtended(st: Compiled, st': Compiled, ks: seq<Field>) {
    && st'.valueNames == Extend(st.valueNames, ks)
    && |st.valueNames| <= |st'.valueNames|
    && st'.setNames == st.setNames + st'.valueNames[|st.valueNames|..]
    && (forall f :: f in st'.values <==> f in st'.valueNames)
  }

  /** Column steps compose: `ColumnsExtended` for the front of `ks`, then one `ColumnStep` for its last key. */
  lemma {:induction false} ColumnsExtendedStep(st: Compiled, mid: Compiled, st': Compiled, ks: seq<Field>)
    requires ks != []
    requires ColumnsExtended(st, mid, ks[..|ks| - 1]) && ColumnStep(mid, st', ks[|ks| - 1])
    ensures ColumnsExtended(st, st', ks)
  {
    var x := ks[|ks| - 1];
    if x !in mid.values {
      assert (mid.valueNames + [x])[|st.valueNames|..] == mid.valueNames[|st.valueNames|..] + [x];
    }
  }

  /** `st'` has the `$set` literal of `c` appended to the list of each field of `ks`, and nothing else. */
  ghost predicate SetLiteralsAdded(ctx: Context, c: ChangeSet, st: Compiled, st': Compiled, ks: seq<Field>) {
    forall f :: ValuesAt(st', f) == ValuesAt(st, f) + (if f in ks then [Quote(ctx.serialize(f, c.setDelta.Get(f)))] else [])
  }

  /** `st'` has a `NULL` placeholder appended to the list of each field of `ks` not in `added`, and nothing else. */
  ghost predicate NullsAdded(st: Compiled, st': Compiled, ks: seq<Field>, added: set<Field>) {
    forall f :: ValuesAt(st', f) == ValuesAt(st, f) + (if f in ks && f !in added then [Quote(Null)] else [])
  }

  /** `st'` has one CASE arm for `c` appended to each field of `ks`, and no other arms. */
  ghost predicate ArmsAdded(ctx: Context, c: ChangeSet, st: Compiled, st': Compiled, ks: seq<Field>) {
    && (forall f :: f in st'.aggregates <==> f in st.aggregates || f in ks)
    && (forall f :: ArmsAt(st', f) == ArmsAt(st, f) + (if f in ks then [Arm(Id(ctx, c), Quote(c.incDelta.Get(f)))] else []))
  }

  /** `st'` has the fields `ks` registered, in order, under the primary key of `c`, with `c`'s entity if the key is new. */
  ghost predicate Registered(ctx: Context, c: ChangeSet, st: Compiled, st': Compiled, ks: seq<Field>) {
    var id := Id(ctx, c);
    && (forall v :: v in st'.assign <==> v in st.assign || (v == id && ks != []))
    && (forall v :: NamesAt(st', v) == NamesAt(st, v) + (if v == id then ks else []))
    && (forall v :: v in st.assign ==> st'.assign[v].item == st.assign[v].item)
    && (id !in st.assign && ks != [] ==> st'.assign[id].item == c.item)
  }

  /** `$set` literals for the front of `ks`, then for its last key, are `$set` literals for `ks`. */
  lemma {:induction false} SetLiteralsCompose(ctx: Context, c: ChangeSet, st: Compiled, mid: Compiled, st': Compiled, ks: seq<Field>)
    requires ks != [] && NoDup(ks)
    requires SetLiteralsAdded(ctx, c, st, mid, ks[..|ks| - 1]) && SetLiteralsAdded(ctx, c, mid, st', [ks[|ks| - 1]])
    ensures SetLiteralsAdded(ctx, c, st, st', ks)
  {
    var front, x := ks[..|ks| - 1], ks[|ks| - 1];
    NoDupFront(ks);
    forall f ensures ValuesAt(st', f) == ValuesAt(st, f) + (if f in ks then [Quote(ctx.serialize(f, c.setDelta.Get(f)))] else []) {
      var lit := [Quote(ctx.serialize(f, c.setDelta.Get(f)))];
      InFrontLast(ks, f);
      assert ValuesAt(mid, f) == ValuesAt(st, f) + (if f in front then lit else []);
      assert ValuesAt(st', f) == ValuesAt(mid, f) + (if f == x then lit else []);
    }
  }

  /** `NULL` placeholders for the front of `ks`, then for its last key, are placeholders for `ks`. */
  lemma {:induction false} NullsCompose(st: Compiled, mid: Compiled, st': Compiled, ks: seq<Field>, added: set<Field>)
    requires ks != [] && NoDup(ks)
    requires NullsAdded(st, mid, ks[..|ks| - 1], added)
    requires NullsAdded(mid, st', [ks[|ks| - 1]], added + KeySet(ks[..|ks| - 1]))
    ensures NullsAdded(st, st', ks, added)
  {
    var front, x := ks[..|ks| - 1], ks[|ks| - 1];
    NoDupFront(ks);
    forall f ensures ValuesAt(st', f) == ValuesAt(st, f) + (if f in ks && f !in added then [Quote(Null)] else []) {
      InFrontLast(ks, f);
      assert ValuesAt(mid, f) == ValuesAt(st, f) + (if f in front && f !in added then [Quote(Null)] else []);
      assert ValuesAt(st', f) == ValuesAt(mid, f) + (if f == x && f !in added + KeySet(front) then [Quote(Null)] else []);
    }
  }

  /** CASE arms for the front of `ks`, then for its last key, are CASE arms for `ks`. */
  lemma {:induction false} ArmsCompose(ctx: Context, c: ChangeSet, st: Compiled, mid: Compiled, st': Compiled, ks: seq<Field>)
    requires ks != [] && NoDup(ks)
    requires ArmsAdded(ctx, c, st, mid, ks[..|ks| - 1]) && ArmsAdded(ctx, c, mid, st', [ks[|ks| - 1]])
    ensures ArmsAdded(ctx, c, st, st', ks)
  {
    ArmKeysCompose(st, mid, st', ks);
    ArmListsCompose(ctx, c, st, mid, st', ks);
  }

  lemma {:induction false} ArmKeysCompose(st: Compiled, mid: Compiled, st': Compiled, ks: seq<Field>)
    requires ks != []
    requires forall f :: f in mid.aggregates <==> f in st.aggregates || f in ks[..|ks| - 1]
    requires forall f :: f in st'.aggregates <==> f in mid.aggregates || f in [ks[|ks| - 1]]
    ensures forall f :: f in st'.aggregates <==> f in st.aggregates || f in ks
  {
    forall f ensures f in st'.aggregates <==> f in st.aggregates || f in ks {
      InFrontLast(ks, f);
    }
  }

  lemma {:induction false} ArmListsCompose(ctx: Context, c: ChangeSet, st: Compiled, mid: Compiled, st': Compiled, ks: seq<Field>)
    requires ks != [] && NoDup(ks)
    requires forall f :: ArmsAt(mid, f) == ArmsAt(st, f) + (if f in ks[..|ks| - 1] then [Arm(Id(ctx, c), Quote(c.incDelta.Get(f)))] else [])
    requires forall f :: ArmsAt(st', f) == ArmsAt(mid, f) + (if f in [ks[|ks| - 1]] then [Arm(Id(ctx, c), Quote(c.incDelta.Get(f)))] else [])
    ensures forall f :: ArmsAt(st', f) == ArmsAt(st, f) + (if f in ks then [Arm(Id(ctx, c), Quote(c.incDelta.Get(f)))] else [])
  {
    var front, x := ks[..|ks| - 1], ks[|ks| - 1];
    NoDupFront(ks);
    forall f ensures ArmsAt(st', f) == ArmsAt(st, f) + (if f in ks then [Arm(Id(ctx, c), Quote(c.incDelta.Get(f)))] else []) {
      var arm := [Arm(Id(ctx, c), Quote(c.incDelta.Get(f)))];
      InFrontLast(ks, f);
      assert ArmsAt(mid, f) == ArmsAt(st, f) + (if f in front then arm else []);
      assert ArmsAt(st', f) == ArmsAt(mid, f) + (if f == x then arm else []);
    }
  }

  /** Registrations for the front of `ks`, then for its last key, are registrations for `ks`. */
  lemma {:induction false} RegisteredCompose(ctx: Context, c: ChangeSet, st: Compiled, mid: Compiled, st': Compiled, ks: seq<Field>)
    requires ks != []
    requires Registered(ctx, c, st, mid, ks[..|ks| - 1]) && Registered(ctx, c, mid, st', [ks[|ks| - 1]])
    ensures Registered(ctx, c, st, st', ks)
  {
    var front, x := ks[..|ks| - 1], ks[|ks| - 1];
    var id := Id(ctx, c);
    FrontLast(ks);
    forall v ensures v in st'.assign <==> v in st.assign || (v == id && ks != []) {
      assert v in mid.assign <==> v in st.assign || (v == id && front != []);
      assert v in st'.assign <==> v in mid.assign || v == id;
    }
    forall v ensures NamesAt(st', v) == NamesAt(st, v) + (if v == id then ks else []) {
      assert NamesAt(mid, v) == NamesAt(st, v) + (if v == id then front else []);
      assert NamesAt(st', v) == NamesAt(mid, v) + (if v == id then [x] else []);
    }
    forall v | v in st.assign ensures st'.assign[v].item == st.assign[v].item {
      assert v in mid.assign && mid.assign[v].item == st.assign[v].item;
    }
  }

  /** Arms added on top of a state with the same `aggregateSelects` are arms added on top of the other. */
  lemma {:induction false} ArmsSameBase(ctx: Context, c: ChangeSet, st: Compiled, st2: Compiled, st3: Compiled, ks: seq<Field>)
    requires st2.aggregates == st.aggregates && ArmsAdded(ctx, c, st2, st3, ks)
    ensures ArmsAdded(ctx, c, st, st3, ks)
  {
    assert forall f :: ArmsAt(st2, f) == ArmsAt(st, f);
  }

  /** Registrations on top of a state with the same `assignReturning` are registrations on top of the other. */
  lemma {:induction false} RegisteredSameBase(ctx: Context, c: ChangeSet, st: Compiled, st2: Compiled, st3: Compiled, ks: seq<Field>)
    requires st2.assign == st.assign && Registered(ctx, c, st2, st3, ks)
    ensures Registered(ctx, c, st, st3, ks)
  {
    assert forall v :: NamesAt(st2, v) == NamesAt(st, v);
  }

  /** One `$set` field adds a `values` key and a SET clause exactly when it has no list yet. */
  lemma {:induction false} SetFieldColumns(ctx: Context, st: Compiled, added: set<Field>, c: ChangeSet, f: Field)
    ensures ColumnStep(st, SetField(ctx, st, added, c, f).0, f)
  {
  }

  /** One `$set` field appends its serialized literal to its own list only. */
  lemma {:induction false} SetFieldValues(ctx: Context, st: Compiled, added: set<Field>, c: ChangeSet, f: Field)
    ensures SetLiteralsAdded(ctx, c, st, SetField(ctx, st, added, c, f).0, [f])
  {
  }

  /** One `$set` field becomes required and is recorded in `fieldAddedToValues`; nothing else changes. */
  lemma {:induction false} SetFieldRest(ctx: Context, st: Compiled, added: set<Field>, c: ChangeSet, f: Field)
    ensures var (st', added') := SetField(ctx, st, added, c, f);
      && st'.required == AddKey(st.required, f)
      && st'.aggregates == st.aggregates && st'.assign == st.assign && st'.setReturning == st.setReturning
      && added' == added + {f}
  {
  }

  /** Each new `$set` field becomes both a `values` key and a SET clause. */
  lemma {:induction false} SetLoopColumns(ctx: Context, st: Compiled, added: set<Field>, c: ChangeSet, ks: seq<Field>)
    requires forall f :: f in st.values <==> f in st.valueNames
    ensures ColumnsExtended(st, SetLoop(ctx, st, added, c, ks).0, ks)
    decreases |ks|
  {
    if ks == [] {
      assert st.valueNames[|st.valueNames|..] == [];
    } else {
      var front, x := ks[..|ks| - 1], ks[|ks| - 1];
      var (mid, midAdded) := SetLoop(ctx, st, added, c, front);
      assert ColumnsExtended(st, mid, front) by {
        SetLoopColumns(ctx, st, added, c, front);
      }
      assert ColumnStep(mid, SetField(ctx, mid, midAdded, c, x).0, x) by {
        SetFieldColumns(ctx, mid, midAdded, c, x);
      }
      ColumnsExtendedStep(st, mid, SetLoop(ctx, st, added, c, ks).0, ks);
    }
  }

  /** Each `$set` field receives its serialized literal, once. */
  lemma {:induction false} SetLoopValues(ctx: Context, st: Compiled, added: set<Field>, c: ChangeSet, ks: seq<Field>)
    requires NoDup(ks)
    ensures SetLiteralsAdded(ctx, c, st, SetLoop(ctx, st, added, c, ks).0, ks)
    decreases |ks|
  {
    if ks != [] {
      var front, x := ks[..|ks| - 1], ks[|ks| - 1];
      var (mid, midAdded) := SetLoop(ctx, st, added, c, front);
      NoDupFront(ks);
      assert SetLiteralsAdded(ctx, c, st, mid, front) by {
        SetLoopValues(ctx, st, added, c, front);
      }
      assert SetLiteralsAdded(ctx, c, mid, SetField(ctx, mid, midAdded, c, x).0, [x]) by {
        SetFieldValues(ctx, mid, midAdded, c, x);
      }
      SetLiteralsCompose(ctx, c, st, mid, SetLoop(ctx, st, added, c, ks).0, ks);
    }
  }

  /** The `$set` loop adds its fields to the required fields and to `fieldAddedToValues`, and touches nothing else. */
  lemma {:induction false} SetLoopRest(ctx: Context, st: Compiled, added: set<Field>, c: ChangeSet, ks: seq<Field>)
    ensures var (st', added') := SetLoop(ctx, st, added, c, ks);
      && st'.required == Extend(st.required, ks)
      && st'.aggregates == st.aggregates && st'.assign == st.assign && st'.setReturning == st.setReturning
      && added' == added + KeySet(ks)
    decreases |ks|
  {
    if ks != [] {
      var front, x := ks[..|ks| - 1], ks[|ks| - 1];
      var (mid, midAdded) := SetLoop(ctx, st, added, c, front);
      KeySetFrontLast(ks);
      SetLoopRest(ctx, st, added, c, front);
      SetFieldRest(ctx, mid, midAdded, c, x);
    }
  }

  // ---------------------------------------------------------------------
  // One `$inc` field and the `$inc` loop
  // ---------------------------------------------------------------------

  /** One `$inc` field adds a `values` key and a SET clause exactly when it has no list yet. */
  lemma {:induction false} IncFieldColumns(ctx: Context, st: Compiled, added: set<Field>, c: ChangeSet, f: Field)
    ensures ColumnStep(st, IncField(ctx, st, added, c, f).0, f)
  {
    var st1 := AddColumn(AddAggregate(st, f), f);
    assert ColumnStep(st, st1, f);
  }

  /** One `$inc` field not yet given a literal by this change set receives a `NULL` placeholder. */
  lemma {:induction false} IncFieldValues(ctx: Context, st: Compiled, added: set<Field>, c: ChangeSet, f: Field)
    ensures NullsAdded(st, IncField(ctx, st, added, c, f).0, [f], added)
  {
    var st1 := AddColumn(AddAggregate(st, f), f);
    assert forall g :: ValuesAt(st1, g) == ValuesAt(st, g);
  }

  /** Appending `arm` to the (possibly new) arm list of `f` adds exactly that arm. */
  lemma {:induction false} ArmAppended(ctx: Context, c: ChangeSet, st: Compiled, st1: Compiled, st': Compiled, f: Field)
    requires st1.aggregates == AddAggregate(st, f).aggregates
    requires st'.aggregates == st1.aggregates[f := ArmsAt(st1, f) + [Arm(Id(ctx, c), Quote(c.incDelta.Get(f)))]]
    ensures ArmsAdded(ctx, c, st, st', [f])
  {
    var arm := Arm(Id(ctx, c), Quote(c.incDelta.Get(f)));
    assert ArmsAt(st1, f) == ArmsAt(st, f);
    forall g ensures ArmsAt(st', g) == ArmsAt(st, g) + (if g in [f] then [arm] else []) {
      if g != f {
        assert ArmsAt(st1, g) == ArmsAt(st, g);
      }
    }
  }

  /** One `$inc` field gains one CASE arm for this change set's primary key. */
  lemma {:induction false} IncFieldArms(ctx: Context, st: Compiled, added: set<Field>, c: ChangeSet, f: Field)
    ensures ArmsAdded(ctx, c, st, IncField(ctx, st, added, c, f).0, [f])
  {
    var st1 := Register(AddColumn(AddAggregate(st, f), f), Id(ctx, c), c.item, f);
    var st' := IncField(ctx, st, added, c, f).0;
    assert st'.aggregates == st1.aggregates[f := ArmsAt(st1, f) + [Arm(Id(ctx, c), Quote(c.incDelta.Get(f)))]];
    ArmAppended(ctx, c, st, st1, st', f);
  }

  /** One `$inc` field is registered under the change set's primary key, with its entity when the key is new. */
  lemma {:induction false} IncFieldAssign(ctx: Context, st: Compiled, added: set<Field>, c: ChangeSet, f: Field)
    ensures Registered(ctx, c, st, IncField(ctx, st, added, c, f).0, [f])
  {
    var st1 := Register(AddColumn(AddAggregate(st, f), f), Id(ctx, c), c.item, f);
    assert AddColumn(AddAggregate(st, f), f).assign == st.assign;
    assert st1.assign == IncField(ctx, st, added, c, f).0.assign;
  }

  /** One `$inc` field becomes required, joins `setReturning` and is recorded in `fieldAddedToValues`. */
  lemma {:induction false} IncFieldRest(ctx: Context, st: Compiled, added: set<Field>, c: ChangeSet, f: Field)
    ensures var (st', added') := IncField(ctx, st, added, c, f);
      && st'.required == AddKey(st.required, f)
      && st'.setReturning == st.setReturning + {f}
      && added' == added + {f}
  {
    var st1 := Register(AddColumn(AddAggregate(st, f), f), Id(ctx, c), c.item, f);
    assert st1.required == st.required && st1.setReturning == st.setReturning;
  }

  /** Each new `$inc` field becomes both a `values` key and a SET clause. */
  lemma {:induction false} IncLoopColumns(ctx: Context, st: Compiled, added: set<Field>, c: ChangeSet, ks: seq<Field>)
    requires forall f :: f in st.values <==> f in st.valueNames
    ensures ColumnsExtended(st, IncLoop(ctx, st, added, c, ks).0, ks)
    decreases |ks|
  {
    if ks == [] {
      assert st.valueNames[|st.valueNames|..] == [];
    } else {
      var front, x := ks[..|ks| - 1], ks[|ks| - 1];
      var (mid, midAdded) := IncLoop(ctx, st, added, c, front);
      assert ColumnsExtended(st, mid, front) by {
        IncLoopColumns(ctx, st, added, c, front);
      }
      assert ColumnStep(mid, IncField(ctx, mid, midAdded, c, x).0, x) by {
        IncFieldColumns(ctx, mid, midAdded, c, x);
      }
      ColumnsExtendedStep(st, mid, IncLoop(ctx, st, added, c, ks).0, ks);
    }
  }

  /** The `$inc` loop adds its fields to `requiredFields`, `setReturning` and `fieldAddedToValues`. */
  lemma {:induction false} IncLoopRest(ctx: Context, st: Compiled, added: set<Field>, c: ChangeSet, ks: seq<Field>)
    ensures var (st', added') := IncLoop(ctx, st, added, c, ks);
      && st'.required == Extend(st.required, ks)
      && st'.setReturning == st.setReturning + KeySet(ks)
      && added' == added + KeySet(ks)
    decreases |ks|
  {
    if ks != [] {
      var front, x := ks[..|ks| - 1], ks[|ks| - 1];
      var (mid, midAdded) := IncLoop(ctx, st, added, c, front);
      KeySetFrontLast(ks);
      assert mid.required == Extend(st.required, front)
          && mid.setReturning == st.setReturning + KeySet(front)
          && midAdded == added + KeySet(front) by {
        IncLoopRest(ctx, st, added, c, front);
      }
      IncFieldRest(ctx, mid, midAdded, c, x);
    }
  }

  /** An `$inc` field not already given a `$set` literal receives one `NULL` placeholder. */
  lemma {:induction false} IncLoopValues(ctx: Context, st: Compiled, added: set<Field>, c: ChangeSet, ks: seq<Field>)
    requires NoDup(ks)
    ensures NullsAdded(st, IncLoop(ctx, st, added, c, ks).0, ks, added)
    decreases |ks|
  {
    if ks != [] {
      var front, x := ks[..|ks| - 1], ks[|ks| - 1];
      var (mid, midAdded) := IncLoop(ctx, st, added, c, front);
      NoDupFront(ks);
      assert NullsAdded(st, mid, front, added) by {
        IncLoopValues(ctx, st, added, c, front);
      }
      assert midAdded == added + KeySet(front) by {
        IncLoopRest(ctx, st, added, c, front);
      }
      assert NullsAdded(mid, IncField(ctx, mid, midAdded, c, x).0, [x], midAdded) by {
        IncFieldValues(ctx, mid, midAdded, c, x);
      }
      NullsCompose(st, mid, IncLoop(ctx, st, added, c, ks).0, ks, added);
    }
  }

  /** Each `$inc` field receives one CASE arm for this change set's primary key. */
  lemma {:induction false} IncLoopArms(ctx: Context, st: Compiled, added: set<Field>, c: ChangeSet, ks: seq<Field>)
    requires NoDup(ks)
    ensures ArmsAdded(ctx, c, st, IncLoop(ctx, st, added, c, ks).0, ks)
    decreases |ks|
  {
    if ks != [] {
      var front, x := ks[..|ks| - 1], ks[|ks| - 1];
      var (mid, midAdded) := IncLoop(ctx, st, added, c, front);
      NoDupFront(ks);
      assert ArmsAdded(ctx, c, st, mid, front) by {
        IncLoopArms(ctx, st, added, c, front);
      }
      assert ArmsAdded(ctx, c, mid, IncField(ctx, mid, midAdded, c, x).0, [x]) by {
        IncFieldArms(ctx, mid, midAdded, c, x);
      }
      ArmsCompose(ctx, c, st, mid, IncLoop(ctx, st, added, c, ks).0, ks);
    }
  }

  /** The `$inc` fields are registered, in order, under this change set's primary key. */
  lemma {:induction false} IncLoopAssign(ctx: Context, st: Compiled, added: set<Field>, c: ChangeSet, ks: seq<Field>)
    ensures Registered(ctx, c, st, IncLoop(ctx, st, added, c, ks).0, ks)
    decreases |ks|
  {
    if ks != [] {
      var front, x := ks[..|ks| - 1], ks[|ks| - 1];
      var (mid, midAdded) := IncLoop(ctx, st, added, c, front);
      assert Registered(ctx, c, st, mid, front) by {
        IncLoopAssign(ctx, st, added, c, front);
      }
      assert Registered(ctx, c, mid, IncField(ctx, mid, midAdded, c, x).0, [x]) by {
        IncFieldAssign(ctx, mid, midAdded, c, x);
      }
      RegisteredCompose(ctx, c, st, mid, IncLoop(ctx, st, added, c, ks).0, ks);
    }
  }

  // ---------------------------------------------------------------------
  // One change set
  // ---------------------------------------------------------------------

  /** Extending a shaped state that already holds the primary key keeps it shaped. */
  lemma {:induction false} ShapedAfter(ctx: Context, st: Compiled, st': Compiled, ks: seq<Field>)
    requires ColumnsShaped(ctx, st) && st.valueNames != []
    requires ColumnsExtended(st, st', ks)
    ensures ColumnsShaped(ctx, st') && st'.valueNames != []
  {
    ExtendProperties(st.valueNames, ks);
    assert st'.valueNames == st.valueNames + st'.valueNames[|st.valueNames|..];
  }

  /** A change set appends its new fields to the `values` keys and to the SET clauses alike. */
  lemma {:induction false} StepColumns(ctx: Context, st: Compiled, c: ChangeSet)
    requires ColumnsShaped(ctx, st)
    ensures var st' := Step(ctx, st, c);
      && ColumnsShaped(ctx, st')
      && st'.valueNames == Extend(st.valueNames, [ctx.pkName] + c.setDelta.keys + c.incDelta.keys)
  {
    var pk := ctx.pkName;
    var st1 := PkStep(ctx, st, c);
    var (st2, added) := SetLoop(ctx, st1, {}, c, c.setDelta.keys);
    var st3 := IncLoop(ctx, st2, added, c, c.incDelta.keys).0;
    assert ColumnsShaped(ctx, st1) && st1.valueNames != [] && st1.valueNames == Extend(st.valueNames, [pk]) by {
      assert [pk][..0] == [];
    }
    SetLoopColumns(ctx, st1, {}, c, c.setDelta.keys);
    ShapedAfter(ctx, st1, st2, c.setDelta.keys);
    IncLoopColumns(ctx, st2, added, c, c.incDelta.keys);
    ShapedAfter(ctx, st2, st3, c.incDelta.keys);
    ExtendAppend(st.valueNames, [pk], c.setDelta.keys);
    ExtendAppend(st.valueNames, [pk] + c.setDelta.keys, c.incDelta.keys);
  }

  /** `st'` has the quoted primary key of `c` appended to the primary-key column, and nothing else. */
  ghost predicate PkLiteralAdded(ctx: Context, c: ChangeSet, st: Compiled, st': Compiled) {
    forall f :: ValuesAt(st', f) == ValuesAt(st, f) + (if f == ctx.pkName then [Quote(Id(ctx, c))] else [])
  }

  /** `st'` has the `Contribution` of `c` appended to every field's list. */
  ghost predicate ContributionAdded(ctx: Context, c: ChangeSet, st: Compiled, st': Compiled) {
    forall f :: ValuesAt(st', f) == ValuesAt(st, f) + Contribution(ctx, c, f)
  }

  /** The primary-key stage adds the quoted primary key to its column. */
  lemma {:induction false} PkStepValues(ctx: Context, st: Compiled, c: ChangeSet)
    ensures PkLiteralAdded(ctx, c, st, PkStep(ctx, st, c))
  {
  }

  /** For one field: the three stages' additions, in order, are the field's `Contribution`. */
  lemma {:induction false} ContributionAt(ctx: Context, c: ChangeSet, f: Field, added: set<Field>,
                                          a0: seq<Literal>, a1: seq<Literal>, a2: seq<Literal>, a3: seq<Literal>)
    requires a1 == a0 + (if f == ctx.pkName then [Quote(Id(ctx, c))] else [])
    requires a2 == a1 + (if f in c.setDelta.keys then [Quote(ctx.serialize(f, c.setDelta.Get(f)))] else [])
    requires a3 == a2 + (if f in c.incDelta.keys && f !in added then [Quote(Null)] else [])
    requires f in added <==> f in c.setDelta.keys
    ensures a3 == a0 + Contribution(ctx, c, f)
  {
    var pkPart := if f == ctx.pkName then [Quote(Id(ctx, c))] else [];
    if f in c.setDelta.keys {
      assert a3 == a0 + pkPart + [FieldLiteral(ctx, c, f)];
    } else if f in c.incDelta.keys {
      assert a3 == a0 + pkPart + [Quote(Null)];
    } else {
      assert a3 == a0 + pkPart;
    }
  }

  /** The three stages of a change set together add its `Contribution` to every field. */
  lemma {:induction false} ContributionsCompose(ctx: Context, c: ChangeSet, st: Compiled, st1: Compiled, st2: Compiled, st3: Compiled, added: set<Field>)
    requires PkLiteralAdded(ctx, c, st, st1)
    requires SetLiteralsAdded(ctx, c, st1, st2, c.setDelta.keys)
    requires added == KeySet(c.setDelta.keys)
    requires NullsAdded(st2, st3, c.incDelta.keys, added)
    ensures ContributionAdded(ctx, c, st, st3)
  {
    forall f ensures ValuesAt(st3, f) == ValuesAt(st, f) + Contribution(ctx, c, f) {
      ContributionAt(ctx, c, f, added, ValuesAt(st, f), ValuesAt(st1, f), ValuesAt(st2, f), ValuesAt(st3, f));
    }
  }

  /** The three stages of a change set, given by name, add its `Contribution` to every field. */
  lemma {:induction false} StagesValues(ctx: Context, c: ChangeSet, st: Compiled, st1: Compiled, st2: Compiled, added: set<Field>, st3: Compiled)
    requires c.setDelta.WellFormed() && c.incDelta.WellFormed()
    requires st1 == PkStep(ctx, st, c)
    requires (st2, added) == SetLoop(ctx, st1, {}, c, c.setDelta.keys)
    requires st3 == IncLoop(ctx, st2, added, c, c.incDelta.keys).0
    ensures ContributionAdded(ctx, c, st, st3)
  {
    assert PkLiteralAdded(ctx, c, st, st1) by {
      PkStepValues(ctx, st, c);
    }
    assert SetLiteralsAdded(ctx, c, st1, st2, c.setDelta.keys) by {
      SetLoopValues(ctx, st1, {}, c, c.setDelta.keys);
    }
    assert added == KeySet(c.setDelta.keys) by {
      SetLoopRest(ctx, st1, {}, c, c.setDelta.keys);
    }
    assert NullsAdded(st2, st3, c.incDelta.keys, added) by {
      IncLoopValues(ctx, st2, added, c, c.incDelta.keys);
    }
    ContributionsCompose(ctx, c, st, st1, st2, st3, added);
  }

  /** A change set adds to each field's list exactly its `Contribution`. */
  lemma {:induction false} StepValues(ctx: Context, st: Compiled, c: ChangeSet)
    requires c.setDelta.WellFormed() && c.incDelta.WellFormed()
    ensures ContributionAdded(ctx, c, st, Step(ctx, st, c))
  {
    var st1 := PkStep(ctx, st, c);
    var (st2, added) := SetLoop(ctx, st1, {}, c, c.setDelta.keys);
    StagesValues(ctx, c, st, st1, st2, added, IncLoop(ctx, st2, added, c, c.incDelta.keys).0);
  }

  /** A change set adds one CASE arm to each field it increments. */
  lemma {:induction false} StepArms(ctx: Context, st: Compiled, c: ChangeSet)
    requires c.incDelta.WellFormed()
    ensures ArmsAdded(ctx, c, st, Step(ctx, st, c), c.incDelta.keys)
  {
    var st1 := PkStep(ctx, st, c);
    var (st2, added) := SetLoop(ctx, st1, {}, c, c.setDelta.keys);
    assert st2.aggregates == st.aggregates by {
      SetLoopRest(ctx, st1, {}, c, c.setDelta.keys);
    }
    assert ArmsAdded(ctx, c, st2, IncLoop(ctx, st2, added, c, c.incDelta.keys).0, c.incDelta.keys) by {
      IncLoopArms(ctx, st2, added, c, c.incDelta.keys);
    }
    ArmsSameBase(ctx, c, st, st2, IncLoop(ctx, st2, added, c, c.incDelta.keys).0, c.incDelta.keys);
  }

  /** A change set registers its `$inc` fields under its primary key. */
  lemma {:induction false} StepAssign(ctx: Context, st: Compiled, c: ChangeSet)
    ensures Registered(ctx, c, st, Step(ctx, st, c), c.incDelta.keys)
  {
    var st1 := PkStep(ctx, st, c);
    var (st2, added) := SetLoop(ctx, st1, {}, c, c.setDelta.keys);
    StagesAssign(ctx, c, st, st1, st2, added, IncLoop(ctx, st2, added, c, c.incDelta.keys).0);
  }

  /** The three stages of a change set, given by name, register its `$inc` fields. */
  lemma {:induction false} StagesAssign(ctx: Context, c: ChangeSet, st: Compiled, st1: Compiled, st2: Compiled, added: set<Field>, st3: Compiled)
    requires st1 == PkStep(ctx, st, c)
    requires (st2, added) == SetLoop(ctx, st1, {}, c, c.setDelta.keys)
    requires st3 == IncLoop(ctx, st2, added, c, c.incDelta.keys).0
    ensures Registered(ctx, c, st, st3, c.incDelta.keys)
  {
    assert st2.assign == st.assign by {
      SetLoopRest(ctx, st1, {}, c, c.setDelta.keys);
    }
    assert Registered(ctx, c, st2, st3, c.incDelta.keys) by {
      IncLoopAssign(ctx, st2, added, c, c.incDelta.keys);
    }
    RegisteredSameBase(ctx, c, st, st2, st3, c.incDelta.keys);
  }

  /** A change set adds its primary key, `$set` and `$inc` keys to the required fields, its `$inc` keys to `setReturning`. */
  lemma {:induction false} StepRest(ctx: Context, st: Compiled, c: ChangeSet)
    ensures var st' := Step(ctx, st, c);
      && st'.required == Extend(st.required, c.primaryKey.keys + c.setDelta.keys + c.incDelta.keys)
      && st'.setReturning == st.setReturning + KeySet(c.incDelta.keys)
  {
    var st1 := PkStep(ctx, st, c);
    var (st2, added) := SetLoop(ctx, st1, {}, c, c.setDelta.keys);
    SetLoopRest(ctx, st1, {}, c, c.setDelta.keys);
    IncLoopRest(ctx, st2, added, c, c.incDelta.keys);
    ExtendAppend(st.required, c.primaryKey.keys, c.setDelta.keys);
    ExtendAppend(st.required, c.primaryKey.keys + c.setDelta.keys, c.incDelta.keys);
  }

  // ---------------------------------------------------------------------
  // The whole batch
  // ---------------------------------------------------------------------

  lemma {:induction false} WellFormedFront(cs: seq<ChangeSet>)
    requires WellFormedBatch(cs) && cs != []
    ensures WellFormedBatch(cs[..|cs| - 1])
    ensures var c := cs[|cs| - 1]; c.primaryKey.WellFormed() && c.setDelta.WellFormed() && c.incDelta.WellFormed()
  {
    forall x | x in cs[..|cs| - 1] ensures x in cs {
    }
  }

  /** The `values` keys are the fields in order of first appearance, the primary key first, then the SET clause fields. */
  lemma {:induction false} CompileColumns(ctx: Context, cs: seq<ChangeSet>)
    ensures var st := Compile(ctx, cs);
      && ColumnsShaped(ctx, st)
      && st.valueNames == Extend([], FieldStream(ctx, cs))
    decreases |cs|
  {
    if cs != [] {
      var front, c := cs[..|cs| - 1], cs[|cs| - 1];
      CompileColumns(ctx, front);
      StepColumns(ctx, Compile(ctx, front), c);
      ExtendAppend([], FieldStream(ctx, front), [ctx.pkName] + c.setDelta.keys + c.incDelta.keys);
    }
  }

  /** Every field's literal list is the concatenation of the change sets' contributions, in order. */
  lemma {:induction false} CompileValues(ctx: Context, cs: seq<ChangeSet>)
    requires WellFormedBatch(cs)
    ensures forall f :: ValuesAt(Compile(ctx, cs), f) == ColumnOf(ctx, cs, f)
    decreases |cs|
  {
    if cs != [] {
      WellFormedFront(cs);
      CompileValues(ctx, cs[..|cs| - 1]);
      StepValues(ctx, Compile(ctx, cs[..|cs| - 1]), cs[|cs| - 1]);
    }
  }

  /** Every field's CASE arms are one per incrementing change set, in order. */
  lemma {:induction false} CompileArms(ctx: Context, cs: seq<ChangeSet>)
    requires WellFormedBatch(cs)
    ensures var st := Compile(ctx, cs);
      && (forall f :: f in st.aggregates <==> ArmsOf(ctx, cs, f) != [])
      && (forall f :: ArmsAt(st, f) == ArmsOf(ctx, cs, f))
    decreases |cs|
  {
    if cs != [] {
      WellFormedFront(cs);
      CompileArms(ctx, cs[..|cs| - 1]);
      StepArms(ctx, Compile(ctx, cs[..|cs| - 1]), cs[|cs| - 1]);
    }
  }

  /**
   * A primary key is registered for write-back exactly when some change
   * set with that key increments a field; it carries all their `$inc`
   * fields, in order, and the entity of the first of them.
   */
  lemma {:induction false} CompileAssign(ctx: Context, cs: seq<ChangeSet>)
    ensures var st := Compile(ctx, cs);
      && (forall v :: v in st.assign <==> NamesOf(ctx, cs, v) != [])
      && (forall v :: NamesAt(st, v) == NamesOf(ctx, cs, v))
      && (forall v :: ItemOf(ctx, cs, v).Some? <==> NamesOf(ctx, cs, v) != [])
      && (forall v :: v in st.assign ==> ItemOf(ctx, cs, v) == Some(st.assign[v].item))
    decreases |cs|
  {
    if cs != [] {
      CompileAssign(ctx, cs[..|cs| - 1]);
      StepAssign(ctx, Compile(ctx, cs[..|cs| - 1]), cs[|cs| - 1]);
    }
  }

  /** The required fields are all keys in order of first appearance; `setReturning` is every incremented field. */
  lemma {:induction false} CompileRest(ctx: Context, cs: seq<ChangeSet>)
    ensures var st := Compile(ctx, cs);
      && st.required == Extend([], RequiredStream(cs))
      && st.setReturning == IncFieldsOf(cs)
    decreases |cs|
  {
    if cs != [] {
      var front, c := cs[..|cs| - 1], cs[|cs| - 1];
      CompileRest(ctx, front);
      StepRest(ctx, Compile(ctx, front), c);
      ExtendAppend([], RequiredStream(front), c.primaryKey.keys + c.setDelta.keys + c.incDelta.keys);
    }
  }

  // ---------------------------------------------------------------------
  // Consequences
  // ---------------------------------------------------------------------

  /** The number of change sets that name `f` in their `$set` or `$inc`. */
  function TouchCount(cs: seq<ChangeSet>, f: Field): nat
    decreases |cs|
  {
    if cs == [] then 0
    else TouchCount(cs[..|cs| - 1], f) + (if Touches(cs[|cs| - 1], f) then 1 else 0)
  }

  /** A field is met by `update` exactly when it is the primary key or some change set touches it. */
  lemma {:induction false} FieldStreamMembers(ctx: Context, cs: seq<ChangeSet>)
    ensures forall f :: f in FieldStream(ctx, cs) <==> exists i :: 0 <= i < |cs| && (f == ctx.pkName || Touches(cs[i], f))
    decreases |cs|
  {
    if cs != [] {
      var front := cs[..|cs| - 1];
      FieldStreamMembers(ctx, front);
      forall f | exists i :: 0 <= i < |cs| && (f == ctx.pkName || Touches(cs[i], f))
        ensures f in FieldStream(ctx, cs)
      {
        var i :| 0 <= i < |cs| && (f == ctx.pkName || Touches(cs[i], f));
        if i < |cs| - 1 {
          assert front[i] == cs[i];
        }
      }
      forall f | f in FieldStream(ctx, front)
        ensures exists i :: 0 <= i < |cs| && (f == ctx.pkName || Touches(cs[i], f))
      {
        var i :| 0 <= i < |front| && (f == ctx.pkName || Touches(front[i], f));
        assert cs[i] == front[i];
      }
    }
  }

  /**
   * Every field a change set names in `$set` or `$inc`, other than the
   * primary key, has exactly one SET clause `f = _b.f`; the clauses are
   * in order of first appearance, after the primary key's column.
   */
  lemma {:induction false} SetClausesOnePerField(ctx: Context, cs: seq<ChangeSet>)
    requires cs != []
    ensures var st := Compile(ctx, cs);
      && [ctx.pkName] + st.setNames == Extend([], FieldStream(ctx, cs))
      && NoDup(st.setNames)
      && (forall f :: f in st.setNames <==> f != ctx.pkName && exists i :: 0 <= i < |cs| && Touches(cs[i], f))
  {
    CompileColumns(ctx, cs);
    FieldStreamMembers(ctx, cs);
    assert ctx.pkName in FieldStream(ctx, cs);
    ClauseNames(ctx, Compile(ctx, cs), FieldStream(ctx, cs));
  }

  /** The SET clauses of shaped tables whose columns are the first appearances in `stream` are the stream's other fields, once each. */
  lemma {:induction false} ClauseNames(ctx: Context, st: Compiled, stream: seq<Field>)
    requires ColumnsShaped(ctx, st) && st.valueNames == Extend([], stream) && ctx.pkName in stream
    ensures [ctx.pkName] + st.setNames == st.valueNames
    ensures NoDup(st.setNames)
    ensures forall f :: f in st.setNames <==> f != ctx.pkName && f in stream
  {
    ExtendProperties([], stream);
    var vs := [ctx.pkName] + st.setNames;
    assert vs == st.valueNames;
    forall i, j | 0 <= i < j < |st.setNames| ensures st.setNames[i] != st.setNames[j] {
      assert vs[i + 1] == st.setNames[i] && vs[j + 1] == st.setNames[j];
    }
    forall i | 0 <= i < |st.setNames| ensures st.setNames[i] != ctx.pkName {
      assert vs[i + 1] == st.setNames[i] && vs[0] == ctx.pkName;
    }
  }

  /** A change set with only a primary key adds no SET clause. */
  lemma {:induction false} PkOnlyChangeSetAddsNoClause(ctx: Context, st: Compiled, c: ChangeSet)
    requires ColumnsShaped(ctx, st)
    requires c.setDelta.keys == [] && c.incDelta.keys == []
    ensures Step(ctx, st, c).setNames == st.setNames
  {
    StepColumns(ctx, st, c);
    var st' := Step(ctx, st, c);
    assert [ctx.pkName] + c.setDelta.keys + c.incDelta.keys == [ctx.pkName];
    assert [ctx.pkName][..0] == [];
    if st.valueNames != [] {
      assert ctx.pkName in st.valueNames;
      assert st'.valueNames == st.valueNames;
    }
  }

  /**
   * The literal list of the primary-key column holds one entry per change
   * set plus one per change set that also names the primary key; any other
   * field's list holds one entry per change set that names it.
   */
  lemma {:induction false} ColumnLength(ctx: Context, cs: seq<ChangeSet>, f: Field)
    ensures |ColumnOf(ctx, cs, f)| == (if f == ctx.pkName then |cs| else 0) + TouchCount(cs, f)
    decreases |cs|
  {
    if cs != [] {
      ColumnLength(ctx, cs[..|cs| - 1], f);
    }
  }

  /**
   * When no change set names the primary key in `$set` or `$inc`, the
   * primary-key column receives exactly one quoted primary key per change
   * set, in input order.
   */
  lemma {:induction false} PrimaryKeyColumnOnePerChangeSet(ctx: Context, cs: seq<ChangeSet>)
    requires forall i :: 0 <= i < |cs| ==> !Touches(cs[i], ctx.pkName)
    ensures |ColumnOf(ctx, cs, ctx.pkName)| == |cs|
    ensures forall i :: 0 <= i < |cs| ==> ColumnOf(ctx, cs, ctx.pkName)[i] == Quote(Id(ctx, cs[i]))
    decreases |cs|
  {
    if cs != [] {
      var front := cs[..|cs| - 1];
      forall i | 0 <= i < |front| ensures !Touches(front[i], ctx.pkName) {
        assert front[i] == cs[i];
      }
      PrimaryKeyColumnOnePerChangeSet(ctx, front);
      forall i | 0 <= i < |cs| ensures ColumnOf(ctx, cs, ctx.pkName)[i] == Quote(Id(ctx, cs[i])) {
        if i < |front| {
          assert front[i] == cs[i];
        }
      }
    }
  }

  /**
   * When every change set names field `f` (not the primary key), its list
   * holds, at position `i`, the literal change set `i` staged for it.
   */
  lemma {:induction false} UniformColumn(ctx: Context, cs: seq<ChangeSet>, f: Field)
    requires f != ctx.pkName
    requires forall i :: 0 <= i < |cs| ==> Touches(cs[i], f)
    ensures |ColumnOf(ctx, cs, f)| == |cs|
    ensures forall i :: 0 <= i < |cs| ==> ColumnOf(ctx, cs, f)[i] == FieldLiteral(ctx, cs[i], f)
    decreases |cs|
  {
    if cs != [] {
      var front := cs[..|cs| - 1];
      forall i | 0 <= i < |front| ensures Touches(front[i], f) {
        assert front[i] == cs[i];
      }
      UniformColumn(ctx, front, f);
      forall i | 0 <= i < |cs| ensures ColumnOf(ctx, cs, f)[i] == FieldLiteral(ctx, cs[i], f) {
        if i < |front| {
          assert front[i] == cs[i];
        }
      }
    }
  }

  /** A field is counted as touched by fewer change sets than there are when one of them leaves it out. */
  lemma {:induction false} TouchCountBelow(cs: seq<ChangeSet>, f: Field, k: int)
    requires 0 <= k < |cs| && !Touches(cs[k], f)
    ensures TouchCount(cs, f) < |cs|
    decreases |cs|
  {
    var front := cs[..|cs| - 1];
    if k < |cs| - 1 {
      assert front[k] == cs[k];
      TouchCountBelow(front, f, k);
    } else {
      TouchCountAtMost(front, f);
    }
  }

  lemma {:induction false} TouchCountAtMost(cs: seq<ChangeSet>, f: Field)
    ensures TouchCount(cs, f) <= |cs|
    decreases |cs|
  {
    if cs != [] {
      TouchCountAtMost(cs[..|cs| - 1], f);
    }
  }

  /** `setReturning` is non-empty, and the staging table is read back, exactly when some change set has an `$inc`. */
  lemma {:induction false} SetReturningIffIncrement(cs: seq<ChangeSet>)
    ensures forall f :: f in IncFieldsOf(cs) <==> exists i :: 0 <= i < |cs| && f in cs[i].incDelta.keys
    ensures IncFieldsOf(cs) == {} <==> forall i :: 0 <= i < |cs| ==> cs[i].incDelta.keys == []
    decreases |cs|
  {
    if cs != [] {
      var front := cs[..|cs| - 1];
      SetReturningIffIncrement(front);
      forall f | exists i :: 0 <= i < |cs| && f in cs[i].incDelta.keys
        ensures f in IncFieldsOf(cs)
      {
        var i :| 0 <= i < |cs| && f in cs[i].incDelta.keys;
        if i < |front| {
          assert front[i] == cs[i];
        }
      }
      forall f | f in IncFieldsOf(front)
        ensures exists i :: 0 <= i < |cs| && f in cs[i].incDelta.keys
      {
        var i :| 0 <= i < |front| && f in front[i].incDelta.keys;
        assert cs[i] == front[i];
      }
      if forall i :: 0 <= i < |cs| ==> cs[i].incDelta.keys == [] {
        forall i | 0 <= i < |front| ensures front[i].incDelta.keys == [] {
          assert front[i] == cs[i];
        }
      } else {
        var i :| 0 <= i < |cs| && cs[i].incDelta.keys != [];
        assert cs[i].incDelta.keys[0] in IncFieldsOf(cs);
      }
    }
  }
}
