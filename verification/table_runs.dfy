/** A table is a map from keys to values, after any sequence of operations and under any hash
    function. */
module TableRuns {
  import opened Values
  import opened WeakReferences
  import opened TableSearch

  /** What can happen to a table: `Put` is `t__setindex`, `Offer` is `t_insert`, `Merge` is
      `insert_items` of another table, `DropAll` is `t_delete` of everything, and `Die` is the end of
      an object that some of the values may be weak references to. Where an object dies halfway
      through `insert_items`, that is not a `Merge`, but several of `Put` and `Die`. */
  datatype TableOp =
    | Put(key: Item, value: Item)
    | Offer(key: Item, value: Item)
    | Drop(key: Item)
    | Merge(src: seq<Entry>)
    | DropAll
    | Die(o: Obj)

  /** The value that a value becomes when `o` dies. */
  function AfterDeath(v: Item, o: Obj): Item {
    if v == IWeak(o) then INil else v
  }

  function Bereaved(es: seq<Entry>, o: Obj): (r: seq<Entry>)
    ensures |r| == |es|
  {
    seq(|es|, i requires 0 <= i < |es| => es[i].(value := AfterDeath(es[i].value, o)))
  }

  function Apply(es: seq<Entry>, op: TableOp, r: Rules): seq<Entry> {
    match op
    case Put(key, value) => SetEntry(es, key, value, r)
    case Offer(key, value) => if Place(es, key, r) >= 0 then es else SetEntry(es, key, value, r)
    case Drop(key) => if Place(es, key, r) >= 0 then Removed(es, Place(es, key, r)) else es
    case Merge(src) => AddAll(es, src, |src|, r)
    case DropAll => []
    case Die(o) => Bereaved(es, o)
  }

  function Run(ops: seq<TableOp>, r: Rules): seq<Entry> {
    if ops == [] then [] else Apply(Run(ops[..|ops| - 1], r), ops[|ops| - 1], r)
  }

  /** What a map would have for `k` after an operation before which it had `had`. */
  function Has(had: Option<Item>, op: TableOp, k: Item, r: Rules): Option<Item> {
    match op
    case Put(key, value) => if r.same(key, k) then Some(value) else had
    case Offer(key, value) => if r.same(key, k) && had.None? then Some(value) else had
    case Drop(key) => if r.same(key, k) then None else had
    case Merge(src) => if Lookup(src, k, r).Some? then Some(AsCopied(Lookup(src, k, r).value)) else had
    case DropAll => None
    case Die(o) => if had.Some? then Some(AfterDeath(had.value, o)) else None
  }

  function Expected(ops: seq<TableOp>, k: Item, r: Rules): Option<Item> {
    if ops == [] then None else Has(Expected(ops[..|ops| - 1], k, r), ops[|ops| - 1], k, r)
  }

  /** Only tables are merged in. */
  ghost predicate OpOk(op: TableOp, r: Rules) {
    op.Merge? ==> Sound(op.src, r)
  }

  lemma LookupSame(es: seq<Entry>, a: Item, b: Item, r: Rules)
    requires Sound(es, r) && RulesOk(r) && r.same(a, b)
    ensures Lookup(es, a, r) == Lookup(es, b, r)
  {
    hide Place, Sound, RulesOk;
    PlaceMeans(es, a, r);
    PlaceMeans(es, b, r);
    forall i | 0 <= i < |es| ensures r.same(a, es[i].key) <==> r.same(b, es[i].key) {
      SameThrough(r, a, b, es[i].key);
      SameTurned(r, es[i].key, b);
    }
    assert HasAt(es, a, r, Place(es, a, r)) <==> HasAt(es, b, r, Place(es, a, r));
    assert HasAt(es, a, r, Place(es, b, r)) <==> HasAt(es, b, r, Place(es, b, r));
  }

  lemma DeathKeepsKeys(es: seq<Entry>, o: Obj, k: Item, r: Rules)
    requires Sound(es, r) && RulesOk(r)
    ensures Sound(Bereaved(es, o), r)
    ensures Lookup(Bereaved(es, o), k, r) == Has(Lookup(es, k, r), Die(o), k, r)
  {
    hide Place, Sound, RulesOk;
    ValuesSound(es, Bereaved(es, o), r);
    SamePlace(es, Bereaved(es, o), k, r);
  }

  lemma OpRefines(es: seq<Entry>, op: TableOp, k: Item, r: Rules)
    requires Sound(es, r) && RulesOk(r) && OpOk(op, r)
    ensures Sound(Apply(es, op, r), r)
    ensures Lookup(Apply(es, op, r), k, r) == Has(Lookup(es, k, r), op, k, r)
  {
    hide Place, Sound, RulesOk, SetEntry, Removed, Bereaved, AddAll;
    match op
    case Put(key, value) =>
      SetRefines(es, key, value, r, k);
    case Offer(key, value) =>
      SetRefines(es, key, value, r, k);
      if r.same(key, k) { LookupSame(es, key, k, r); }
    case Drop(key) =>
      if Place(es, key, r) >= 0 {
        RemoveSound(es, Place(es, key, r), r);
        RemoveLookup(es, key, r, k);
      } else if r.same(key, k) {
        LookupSame(es, key, k, r);
      }
    case Merge(src) =>
      AddRefines(es, src, |src|, r, k);
      PlaceMeans(src, k, r);
    case DropAll =>
      EmptyTable(k, r);
    case Die(o) =>
      DeathKeepsKeys(es, o, k, r);
  }

  lemma EmptyTable(k: Item, r: Rules)
    ensures Sound([], r) && Lookup([], k, r) == None
  {
  }

  /** Whatever is done to a table, it stays in order and free of duplicates, and it has for every
      key what a map would have. */
  lemma {:induction false} RunRefines(ops: seq<TableOp>, k: Item, r: Rules)
    requires RulesOk(r) && forall i :: 0 <= i < |ops| ==> OpOk(ops[i], r)
    ensures Sound(Run(ops, r), r) && Lookup(Run(ops, r), k, r) == Expected(ops, k, r)
  {
    hide Sound, RulesOk, Lookup, Apply, Has, OpOk;
    if ops == [] {
      EmptyTable(k, r);
    } else {
      RunRefines(ops[..|ops| - 1], k, r);
      OpRefines(Run(ops[..|ops| - 1], r), ops[|ops| - 1], k, r);
    }
  }

  /** What is left of a key that is a weak reference when its object dies. */
  function KeyBereaved(es: seq<Entry>, i: nat): (r: seq<Entry>)
    requires i < |es|
  {
    es[i := es[i].(key := INil)]
  }

  /** That is why keys must not be weak references: nil would be under the hash code of the object,
      and the table is a table as before if and only if that happens to be the hash code of nil, and
      nil is no other key. */
  lemma WeakKeyDies(es: seq<Entry>, i: nat, r: Rules)
    requires Sound(es, r) && RulesOk(r) && i < |es| && es[i].key.IWeak?
    ensures Sound(KeyBereaved(es, i), r) <==> r.hash(INil) == es[i].hash && Place(es, INil, r) < 0
  {
    hide Place;
    PlaceMeans(es, INil, r);
    var es' := KeyBereaved(es, i);
    var p := Place(es, INil, r);
    if p >= 0 {
      assert HasAt(es, INil, r, p) && es[p].key == INil;
      assert p != i && es'[p].key == INil && es'[i].key == INil;
      assert r.same(INil, INil);
    } else {
      forall j | 0 <= j < |es| && j != i ensures !r.same(es[j].key, INil) && !r.same(INil, es[j].key) {
        assert !HasAt(es, INil, r, j);
        SameTurned(r, es[j].key, INil);
      }
      if r.hash(INil) == es[i].hash {
        assert Sound(es', r);
      } else {
        assert es'[i].hash != r.hash(es'[i].key);
      }
    }
  }
}
