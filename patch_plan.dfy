/**
 * The statement plan of `SQLiteQueryResolver.patch`: the select list that
 * fills the staging table `_b`, the SET list of the UPDATE that copies
 * `_b` back into the table, and the fields whose new values are returned
 * (`aggregateFields`).
 *
 * `PatchSelect`, `FieldsSet` and `AggregateFields` are the specification;
 * `BuildPatch` is the loop the source runs. The lemmas characterise the
 * specification independently of how it is built: the position of every
 * select item, exactly which fields are set, exactly which are returned.
 */
module PatchPlan {
  import opened Common

  /** The patch `changes`: each of `$set`, `$unset` and `$inc` may be absent. */
  datatype Changes = Changes(setDelta: Option<Obj>, unsetDelta: Option<Obj>, incDelta: Option<Obj>)

  /** An item of the select list that creates `_b`. */
  datatype SelectItem =
    | PkColumn(name: Field)                 // the quoted primary-key column
    | LiteralAs(lit: Literal, name: Field)  // `quoteValue(v) as f`
    | NullAs(name: Field)                   // `NULL as f`
    | Returned(name: Field)                 // `(f ) as f`
    | Incremented(name: Field, increment: Literal) // `(f + quoteValue(inc)) as f`

  /** Which of the four loops of `patch` an item comes from. */
  datatype Part = SetPart | UnsetPart | ReturningPart | IncPart

  /** A clause of the SET list: the table's column `field` takes the staging table's value of `field`. */
  datatype SetClause = CopyFromStaging(field: Field)

  /** The plan of one patch: the select list, the SET list and `aggregateFields`. */
  datatype Plan = Plan(select: seq<SelectItem>, assignments: seq<SetClause>, aggregate: seq<Field>)

  /** The own keys of an optional delta; none when it is absent. */
  function KeysOf(o: Option<Obj>): seq<Field> {
    if o.Some? then o.value.keys else []
  }

  /** `o[f]` of an optional delta. */
  function ValueOf(o: Option<Obj>, f: Field): Value {
    if o.Some? then o.value.Get(f) else Undefined
  }

  /** The select item field `f` contributes in loop `part`; `$set` values go through the serializer first. */
  function Item(ch: Changes, serialize: Converter, part: Part, f: Field): (item: SelectItem)
    ensures item.name == f
  {
    match part
    case SetPart => LiteralAs(Quote(serialize(f, ValueOf(ch.setDelta, f))), f)
    case UnsetPart => NullAs(f)
    case ReturningPart => Returned(f)
    case IncPart => Incremented(f, Quote(ValueOf(ch.incDelta, f)))
  }

  /** The items of loop `part` over the keys `ks`, in order. */
  function Items(ch: Changes, serialize: Converter, part: Part, ks: seq<Field>): seq<SelectItem>
    decreases |ks|
  {
    if ks == [] then []
    else Items(ch, serialize, part, ks[..|ks| - 1]) + [Item(ch, serialize, part, ks[|ks| - 1])]
  }

  /** The select list: the primary key, then the `$set`, `$unset`, `returning` and `$inc` items. */
  function PatchSelect(pkName: Field, ch: Changes, returning: seq<Field>, serialize: Converter): seq<SelectItem> {
    [PkColumn(pkName)]
      + Items(ch, serialize, SetPart, KeysOf(ch.setDelta))
      + Items(ch, serialize, UnsetPart, KeysOf(ch.unsetDelta))
      + Items(ch, serialize, ReturningPart, returning)
      + Items(ch, serialize, IncPart, KeysOf(ch.incDelta))
  }

  /** The key order of `fieldsSet`: the `$set`, `$unset` and `$inc` keys, each the first time it is seen. */
  function FieldsSet(ch: Changes): seq<Field> {
    Extend(Extend(Extend([], KeysOf(ch.setDelta)), KeysOf(ch.unsetDelta)), KeysOf(ch.incDelta))
  }

  /** The key order of `aggregateFields`: the `returning` fields, then the `$inc` keys, each the first time it is seen. */
  function AggregateFields(ch: Changes, returning: seq<Field>): seq<Field> {
    Extend(Extend([], returning), KeysOf(ch.incDelta))
  }

  /** The plan of one patch: the select list, one SET clause per key of `fieldsSet` in order, and `aggregateFields`. */
  function PlanOf(pkName: Field, ch: Changes, returning: seq<Field>, serialize: Converter): Plan {
    var fs := FieldsSet(ch);
    Plan(PatchSelect(pkName, ch, returning, serialize),
         seq(|fs|, k requires 0 <= k < |fs| => CopyFromStaging(fs[k])),
         AggregateFields(ch, returning))
  }

  /**
   * Lines 280-319: the select list, `fieldsSet`, `aggregateFields` and the
   * SET list, built as the source builds them.
   */
  method BuildPatch(pkName: Field, ch: Changes, returning: seq<Field>, serialize: Converter) returns (plan: Plan)
    ensures plan == PlanOf(pkName, ch, returning, serialize)
  {
    var select := [PkColumn(pkName)];
    var fieldsSet: seq<Field> := [];
    var aggregate: seq<Field> := [];
    select, fieldsSet, aggregate := AddLoop(ch, serialize, SetPart, KeysOf(ch.setDelta), select, fieldsSet, aggregate);
    select, fieldsSet, aggregate := AddLoop(ch, serialize, UnsetPart, KeysOf(ch.unsetDelta), select, fieldsSet, aggregate);
    select, fieldsSet, aggregate := AddLoop(ch, serialize, ReturningPart, returning, select, fieldsSet, aggregate);
    select, fieldsSet, aggregate := AddLoop(ch, serialize, IncPart, KeysOf(ch.incDelta), select, fieldsSet, aggregate);

    var assignments := BuildSetList(fieldsSet);
    plan := Plan(select, assignments, aggregate);
  }

  /** Lines 316-319: the SET list, one clause per key of `fieldsSet`, the k-th clause copying the k-th key. */
  method BuildSetList(fieldsSet: seq<Field>) returns (assignments: seq<SetClause>)
    ensures |assignments| == |fieldsSet|
    ensures forall k :: 0 <= k < |fieldsSet| ==> assignments[k] == CopyFromStaging(fieldsSet[k])
  {
    assignments := [];
    var k := 0;
    while k < |fieldsSet|
      invariant 0 <= k <= |fieldsSet| && |assignments| == k
      invariant forall j :: 0 <= j < k ==> assignments[j] == CopyFromStaging(fieldsSet[j])
    {
      assignments := assignments + [CopyFromStaging(fieldsSet[k])];
      k := k + 1;
    }
  }

  /** Whether loop `part` adds its keys to `fieldsSet`: all but `returning`. */
  predicate SetsField(part: Part) {
    part != ReturningPart
  }

  /** Whether loop `part` adds its keys to `aggregateFields`: `returning` and `$inc`. */
  predicate ReturnsField(part: Part) {
    part == ReturningPart || part == IncPart
  }

  /**
   * One of the four loops: each key `f` of `ks` appends its select item and
   * is added to `fieldsSet` and to `aggregateFields` as its loop does.
   */
  method AddLoop(ch: Changes, serialize: Converter, part: Part, ks: seq<Field>,
                 select0: seq<SelectItem>, fieldsSet0: seq<Field>, aggregate0: seq<Field>)
    returns (select: seq<SelectItem>, fieldsSet: seq<Field>, aggregate: seq<Field>)
    ensures select == select0 + Items(ch, serialize, part, ks)
    ensures fieldsSet == if SetsField(part) then Extend(fieldsSet0, ks) else fieldsSet0
    ensures aggregate == if ReturnsField(part) then Extend(aggregate0, ks) else aggregate0
  {
    select, fieldsSet, aggregate := select0, fieldsSet0, aggregate0;
    var i := 0;
    while i < |ks|
      invariant 0 <= i <= |ks|
      invariant select == select0 + Items(ch, serialize, part, ks[..i])
      invariant fieldsSet == if SetsField(part) then Extend(fieldsSet0, ks[..i]) else fieldsSet0
      invariant aggregate == if ReturnsField(part) then Extend(aggregate0, ks[..i]) else aggregate0
    {
      assert ks[..i + 1][..i] == ks[..i];
      select := select + [Item(ch, serialize, part, ks[i])];
      if SetsField(part) {
        fieldsSet := AddKey(fieldsSet, ks[i]);
      }
      if ReturnsField(part) {
        aggregate := AddKey(aggregate, ks[i]);
      }
      i := i + 1;
    }
    assert ks[..i] == ks;
  }

  /** The `k`-th item of a loop over `ks` is the item of the `k`-th key. */
  lemma {:induction false} ItemsIndexed(ch: Changes, serialize: Converter, part: Part, ks: seq<Field>)
    ensures |Items(ch, serialize, part, ks)| == |ks|
    ensures forall k :: 0 <= k < |ks| ==> Items(ch, serialize, part, ks)[k] == Item(ch, serialize, part, ks[k])
    decreases |ks|
  {
    if ks != [] {
      var front := ks[..|ks| - 1];
      ItemsIndexed(ch, serialize, part, front);
      forall k | 0 <= k < |front| ensures ks[k] == front[k] {}
    }
  }

  /** `sel` holds, from position `off` on, the items of loop `part` over `ks`, one per key, in key order. */
  ghost predicate Segment(sel: seq<SelectItem>, off: nat, ch: Changes, serialize: Converter, part: Part, ks: seq<Field>) {
    off + |ks| <= |sel| && forall k :: 0 <= k < |ks| ==> sel[off + k] == Item(ch, serialize, part, ks[k])
  }

  /** A segment stays where it is when something is put before and after it. */
  lemma {:induction false} SegmentAt(x: seq<SelectItem>, y: seq<SelectItem>, z: seq<SelectItem>,
                                     ch: Changes, serialize: Converter, part: Part, ks: seq<Field>)
    requires Segment(y, 0, ch, serialize, part, ks)
    ensures Segment(x + y + z, |x|, ch, serialize, part, ks)
  {
    forall k | 0 <= k < |ks| ensures (x + y + z)[|x| + k] == y[k] {}
  }

  /** The items of a loop over `ks` form a segment at position 0. */
  lemma {:induction false} ItemsSegment(ch: Changes, serialize: Converter, part: Part, ks: seq<Field>)
    ensures |Items(ch, serialize, part, ks)| == |ks|
    ensures Segment(Items(ch, serialize, part, ks), 0, ch, serialize, part, ks)
  {
    ItemsIndexed(ch, serialize, part, ks);
  }

  /**
   * The layout of the select list: the primary-key column first, then one
   * item per `$set` key (its serialized value, quoted), one `NULL` per
   * `$unset` key, one pass-through per `returning` field and one `f + inc`
   * per `$inc` key, each group in key order.
   */
  lemma {:induction false} SelectLayout(pkName: Field, ch: Changes, returning: seq<Field>, serialize: Converter)
    ensures var sel := PatchSelect(pkName, ch, returning, serialize);
      var (s, u, i) := (KeysOf(ch.setDelta), KeysOf(ch.unsetDelta), KeysOf(ch.incDelta));
      && |sel| == 1 + |s| + |u| + |returning| + |i|
      && sel[0] == PkColumn(pkName)
      && Segment(sel, 1, ch, serialize, SetPart, s)
      && Segment(sel, 1 + |s|, ch, serialize, UnsetPart, u)
      && Segment(sel, 1 + |s| + |u|, ch, serialize, ReturningPart, returning)
      && Segment(sel, 1 + |s| + |u| + |returning|, ch, serialize, IncPart, i)
  {
    var (s, u, i) := (KeysOf(ch.setDelta), KeysOf(ch.unsetDelta), KeysOf(ch.incDelta));
    var p := [PkColumn(pkName)];
    var a := Items(ch, serialize, SetPart, s);
    var b := Items(ch, serialize, UnsetPart, u);
    var c := Items(ch, serialize, ReturningPart, returning);
    var d := Items(ch, serialize, IncPart, i);
    ItemsSegment(ch, serialize, SetPart, s);
    ItemsSegment(ch, serialize, UnsetPart, u);
    ItemsSegment(ch, serialize, ReturningPart, returning);
    ItemsSegment(ch, serialize, IncPart, i);
    Placed(p, a, b, c, d, ch, serialize, s, u, returning, i);
  }

  /** The four segments of `p + a + b + c + d`, each at the sum of the lengths before it. */
  lemma {:induction false} Placed(p: seq<SelectItem>, a: seq<SelectItem>, b: seq<SelectItem>, c: seq<SelectItem>, d: seq<SelectItem>,
                                  ch: Changes, serialize: Converter, s: seq<Field>, u: seq<Field>, r: seq<Field>, i: seq<Field>)
    requires Segment(a, 0, ch, serialize, SetPart, s) && |a| == |s|
    requires Segment(b, 0, ch, serialize, UnsetPart, u) && |b| == |u|
    requires Segment(c, 0, ch, serialize, ReturningPart, r) && |c| == |r|
    requires Segment(d, 0, ch, serialize, IncPart, i) && |d| == |i|
    ensures Segment(p + a + b + c + d, |p|, ch, serialize, SetPart, s)
    ensures Segment(p + a + b + c + d, |p| + |s|, ch, serialize, UnsetPart, u)
    ensures Segment(p + a + b + c + d, |p| + |s| + |u|, ch, serialize, ReturningPart, r)
    ensures Segment(p + a + b + c + d, |p| + |s| + |u| + |r|, ch, serialize, IncPart, i)
  {
    var all := p + a + b + c + d;
    SegmentAt(p, a, b + c + d, ch, serialize, SetPart, s);
    assert all == p + a + (b + c + d);
    SegmentAt(p + a, b, c + d, ch, serialize, UnsetPart, u);
    assert all == p + a + b + (c + d);
    SegmentAt(p + a + b, c, d, ch, serialize, ReturningPart, r);
    SegmentAt(p + a + b + c, d, [], ch, serialize, IncPart, i);
    assert all == p + a + b + c + d + [];
  }

  /** A key of a segment after position 0 names an item after the primary key. */
  lemma {:induction false} NamedInSegment(sel: seq<SelectItem>, off: nat, ch: Changes, serialize: Converter, part: Part, ks: seq<Field>, f: Field)
    requires 1 <= off && Segment(sel, off, ch, serialize, part, ks) && f in ks
    ensures exists j :: 1 <= j < |sel| && sel[j].name == f
  {
    var k :| 0 <= k < |ks| && ks[k] == f;
    assert sel[off + k] == Item(ch, serialize, part, f);
  }

  /** Adding the keys of a list without repeats to nothing gives that list. */
  lemma {:induction false} ExtendEmpty(ks: seq<Field>)
    requires NoDup(ks)
    ensures Extend([], ks) == ks
    decreases |ks|
  {
    if ks != [] {
      NoDupFront(ks);
      ExtendEmpty(ks[..|ks| - 1]);
      FrontLast(ks);
    }
  }

  /**
   * The SET list has one clause per distinct field of `$set`, `$unset` and
   * `$inc` and no other: a field that is only returned is not set. The
   * `$set` keys come first, in their own order.
   */
  lemma {:induction false} FieldsSetExactly(ch: Changes)
    ensures NoDup(FieldsSet(ch))
    ensures forall f :: f in FieldsSet(ch) <==>
      f in KeysOf(ch.setDelta) || f in KeysOf(ch.unsetDelta) || f in KeysOf(ch.incDelta)
    ensures ch.setDelta.Some? && ch.setDelta.value.WellFormed() ==>
      |KeysOf(ch.setDelta)| <= |FieldsSet(ch)| && FieldsSet(ch)[..|KeysOf(ch.setDelta)|] == KeysOf(ch.setDelta)
  {
    var (s, u, i) := (KeysOf(ch.setDelta), KeysOf(ch.unsetDelta), KeysOf(ch.incDelta));
    ExtendProperties([], s);
    ExtendProperties(Extend([], s), u);
    ExtendProperties(Extend(Extend([], s), u), i);
    if ch.setDelta.Some? && ch.setDelta.value.WellFormed() {
      ExtendEmpty(s);
    }
  }

  /** `aggregateFields` holds each `returning` and each `$inc` field once, and no other. */
  lemma {:induction false} AggregateFieldsExactly(ch: Changes, returning: seq<Field>)
    ensures NoDup(AggregateFields(ch, returning))
    ensures forall f :: f in AggregateFields(ch, returning) <==> f in returning || f in KeysOf(ch.incDelta)
  {
    ExtendProperties([], returning);
    ExtendProperties(Extend([], returning), KeysOf(ch.incDelta));
  }

  /**
   * Every field the UPDATE copies from `_b`, and every field read back into
   * `returning`, is the name of a column of the select list after the
   * primary key: the staging table has each column the later statements use.
   */
  lemma {:induction false} StagingHasColumns(pkName: Field, ch: Changes, returning: seq<Field>, serialize: Converter)
    ensures var sel := PatchSelect(pkName, ch, returning, serialize);
      forall f :: f in FieldsSet(ch) || f in AggregateFields(ch, returning) ==>
        exists j :: 1 <= j < |sel| && sel[j].name == f
  {
    FieldsSetExactly(ch);
    AggregateFieldsExactly(ch, returning);
    forall f | f in FieldsSet(ch) || f in AggregateFields(ch, returning)
      ensures var sel := PatchSelect(pkName, ch, returning, serialize);
        exists j :: 1 <= j < |sel| && sel[j].name == f
    {
      StagedColumn(pkName, ch, returning, serialize, f);
    }
  }

  /** A key of `$set`, `$unset` or `$inc`, or a `returning` field, names a select item after the primary key. */
  lemma {:induction false} StagedColumn(pkName: Field, ch: Changes, returning: seq<Field>, serialize: Converter, f: Field)
    requires f in KeysOf(ch.setDelta) || f in KeysOf(ch.unsetDelta) || f in returning || f in KeysOf(ch.incDelta)
    ensures var sel := PatchSelect(pkName, ch, returning, serialize);
      exists j :: 1 <= j < |sel| && sel[j].name == f
  {
    var sel := PatchSelect(pkName, ch, returning, serialize);
    var (s, u, i) := (KeysOf(ch.setDelta), KeysOf(ch.unsetDelta), KeysOf(ch.incDelta));
    SelectLayout(pkName, ch, returning, serialize);
    if f in s {
      NamedInSegment(sel, 1, ch, serialize, SetPart, s, f);
    } else if f in u {
      NamedInSegment(sel, 1 + |s|, ch, serialize, UnsetPart, u, f);
    } else if f in returning {
      NamedInSegment(sel, 1 + |s| + |u|, ch, serialize, ReturningPart, returning, f);
    } else {
      NamedInSegment(sel, 1 + |s| + |u| + |returning|, ch, serialize, IncPart, i, f);
    }
  }
}
