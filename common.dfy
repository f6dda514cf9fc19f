/**
 * Vocabulary shared by the SQLite adapter's update compiler and query
 * resolver: field names, the JavaScript values the ORM hands over, the
 * SQL literals produced for them, plain JavaScript objects (key order
 * matters: it decides column and clause order), rows read back from the
 * store, and the in-memory entities the adapter writes into.
 */
module Common {

  type Field = string

  /** A JavaScript value as the ORM passes it: `undefined`, `null`, a number or a string. */
  datatype Value = Undefined | Null | Num(n: int) | Str(s: string)

  /**
   * The SQL literal text `quoteValue(v)` produces. The quoting service is
   * external; it is kept symbolic, one literal per value.
   */
  datatype Literal = Quote(v: Value)

  datatype Option<T> = None | Some(value: T)

  /** The exceptions the adapter can surface. */
  datatype Failure =
    | TypeError               // a property read on `undefined`
    | DriverError             // the SQLite driver threw
    | ConnectionsStillActive  // `disconnect` with connections not yet released

  datatype Outcome = Done | Threw(error: Failure)

  datatype Result<T> = Ok(value: T) | Err(error: Failure)

  predicate NoDup<T(==)>(s: seq<T>) {
    forall i, j :: 0 <= i < j < |s| ==> s[i] != s[j]
  }

  /**
   * A plain JavaScript object: its own keys in iteration (insertion) order
   * and the value under each key.
   */
  datatype Obj = Obj(keys: seq<Field>, at: map<Field, Value>) {

    /** What every JavaScript object satisfies: each key once, and exactly the keys that have a value. */
    ghost predicate WellFormed() {
      NoDup(keys) && forall k :: k in at <==> k in keys
    }

    /** The value under key `k`: `undefined` when the key is absent. */
    function Get(k: Field): Value {
      if k in at then at[k] else Undefined
    }
  }

  /** A row returned by the driver: column name to value. */
  type Row = map<Field, Value>

  /** The row's value in column `f`: `undefined` when the row has no such column. */
  function Cell(row: Row, f: Field): Value {
    if f in row then row[f] else Undefined
  }

  /** A per-field conversion supplied by the serializer (`partialSerialize`, `getPropertyXtoClassFunction`). */
  type Converter = (Field, Value) -> Value

  /** An in-memory entity object; the adapter assigns its properties in place. */
  class Entity {
    var fields: map<Field, Value>

    constructor (fields: map<Field, Value>)
      ensures this.fields == fields
    {
      this.fields := fields;
    }
  }

  // ---------------------------------------------------------------------
  // Ordered key sets: the keys of an object used only for its keys
  // (`requiredFields`, `fieldsSet`), which keep the order in which keys
  // were first added.
  // ---------------------------------------------------------------------

  /** Adding key `k` to an object used as an ordered set: appends `k` unless it is already a key. */
  function AddKey(s: seq<Field>, k: Field): seq<Field> {
    if k in s then s else s + [k]
  }

  /** The keys of `ks` as a set. */
  function KeySet(ks: seq<Field>): set<Field> {
    set k | k in ks
  }

  /** Dropping the last element of a list without repeats leaves a list without repeats that lacks it. */
  lemma {:induction false} NoDupFront<T>(s: seq<T>)
    requires NoDup(s) && s != []
    ensures NoDup(s[..|s| - 1]) && s[|s| - 1] !in s[..|s| - 1]
  {
    var front := s[..|s| - 1];
    forall i, j | 0 <= i < j < |front| ensures front[i] != front[j] {
      assert front[i] == s[i] && front[j] == s[j];
    }
    forall i | 0 <= i < |front| ensures front[i] != s[|s| - 1] {
      assert front[i] == s[i];
    }
  }

  /** A non-empty list is its front followed by its last element. */
  lemma {:induction false} FrontLast<T>(s: seq<T>)
    requires s != []
    ensures s == s[..|s| - 1] + [s[|s| - 1]]
  {
  }

  /** An element of a non-empty list is in its front or is its last element. */
  lemma {:induction false} InFrontLast<T>(s: seq<T>, x: T)
    requires s != []
    ensures x in s <==> x in s[..|s| - 1] || x == s[|s| - 1]
  {
    FrontLast(s);
  }

  /** The key set of a non-empty list is that of its front plus its last key. */
  lemma {:induction false} KeySetFrontLast(ks: seq<Field>)
    requires ks != []
    ensures KeySet(ks) == KeySet(ks[..|ks| - 1]) + {ks[|ks| - 1]}
  {
    forall k ensures k in KeySet(ks) <==> k in KeySet(ks[..|ks| - 1]) || k == ks[|ks| - 1] {
      InFrontLast(ks, k);
    }
  }

  /** Adds every key of `ks`, in order. */
  function Extend(s: seq<Field>, ks: seq<Field>): seq<Field>
    decreases |ks|
  {
    if ks == [] then s else AddKey(Extend(s, ks[..|ks| - 1]), ks[|ks| - 1])
  }

  /**
   * Extending keeps what was there in place, adds exactly the new keys
   * and never repeats one.
   */
  lemma {:induction false} ExtendProperties(s: seq<Field>, ks: seq<Field>)
    ensures |s| <= |Extend(s, ks)| && Extend(s, ks)[..|s|] == s
    ensures forall k :: k in Extend(s, ks) <==> k in s || k in ks
    ensures NoDup(s) ==> NoDup(Extend(s, ks))
    decreases |ks|
  {
    if ks != [] {
      var front := ks[..|ks| - 1];
      ExtendProperties(s, front);
      assert ks == front + [ks[|ks| - 1]];
    }
  }

  /** Adding two key lists one after the other is adding their concatenation. */
  lemma {:induction false} ExtendAppend(s: seq<Field>, xs: seq<Field>, ys: seq<Field>)
    ensures Extend(Extend(s, xs), ys) == Extend(s, xs + ys)
    decreases |ys|
  {
    if ys != [] {
      var front := ys[..|ys| - 1];
      ExtendAppend(s, xs, front);
      assert (xs + ys)[..|xs + ys| - 1] == xs + front;
      assert (xs + ys)[|xs + ys| - 1] == ys[|ys| - 1];
      assert xs + ys != [];
    } else {
      assert xs + ys == xs;
    }
  }
}
