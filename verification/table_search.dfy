/** Searching the items of a table, which are in the order of their hash codes, and what that
    order is good for (e_table.c). */
module TableSearch {
  import opened Values
  import opened WeakReferences

  datatype Entry = Entry(hash: nat, key: Item, value: Item)

  /** How keys are hashed and compared. `same` is what the generic comparison of the table decides
      for values of the same kind; strings are known by their object. */
  datatype Rules = Rules(hash: Item -> nat, same: (Item, Item) -> bool, isString: Obj -> bool)

  predicate Refers(i: Item) {
    i.IStrong? || i.IWeak?
  }

  /** Key equality is an equivalence that the hash function agrees with, whatever collisions it
      has. The pool of strings makes pointer equality the right one for them. */
  ghost predicate RulesOk(r: Rules) {
    && (forall a :: r.same(a, a))
    && (forall a, b :: r.same(a, b) ==> r.same(b, a) && r.hash(a) == r.hash(b))
    && (forall a, b, c :: r.same(a, b) && r.same(b, c) ==> r.same(a, c))
    && (forall a, b :: Refers(a) && Refers(b) && a.o == b.o ==> r.same(a, b))
    && (forall a, b :: Refers(a) && r.isString(a.o) && r.same(a, b) ==> Refers(b) && b.o == a.o)
    && (forall a, b :: Refers(a) && r.same(a, b) ==> Refers(b))
    && (forall a, b :: !Refers(a) && r.same(a, b) ==> a == b)
  }

  ghost predicate Sorted(es: seq<Entry>) {
    forall i, j :: 0 <= i < j < |es| ==> es[i].hash <= es[j].hash
  }

  /** Sorted, with the right hash codes, and no two keys the same. */
  ghost predicate Sound(es: seq<Entry>, r: Rules) {
    && Sorted(es)
    && (forall i :: 0 <= i < |es| ==> es[i].hash == r.hash(es[i].key))
    && (forall i, j :: 0 <= i < j < |es| ==> !r.same(es[i].key, es[j].key))
  }

  // ---------------------------------------------------------------------------------------
  // Where to find a key
  // ---------------------------------------------------------------------------------------

  /** The first item, from `i` on, whose hash code is not less than `h`. */
  function LowerBound(es: seq<Entry>, h: nat, i: nat): (b: nat)
    requires i <= |es|
    ensures i <= b <= |es| && (b < |es| ==> es[b].hash >= h)
    ensures forall j :: i <= j < b ==> es[j].hash < h
    decreases |es| - i
  {
    if i == |es| || es[i].hash >= h then i else LowerBound(es, h, i + 1)
  }

  /** The first of the items with hash code `h`, from `i` on, that has the key. */
  function FirstMatch(es: seq<Entry>, key: Item, h: nat, r: Rules, i: nat): (m: int)
    requires i <= |es|
    ensures m == -1 || (i <= m < |es| && es[m].hash == h && r.same(key, es[m].key))
    decreases |es| - i
  {
    if i == |es| || es[i].hash != h then -1
    else if r.same(key, es[i].key) then i
    else FirstMatch(es, key, h, r, i + 1)
  }

  /** The bitwise complement, by which a position is told from an index. */
  function Not(n: int): int {
    -n - 1
  }

  /** The index of the item with the key, or the complement of the position that a new item with
      it should get. */
  function Place(es: seq<Entry>, key: Item, r: Rules): (p: int)
    ensures -|es| - 1 <= p < |es|
  {
    var first := LowerBound(es, r.hash(key), 0);
    var m := FirstMatch(es, key, r.hash(key), r, first);
    if m >= 0 then m else Not(first)
  }

  lemma BoundUnique(es: seq<Entry>, h: nat, b: nat)
    requires Sorted(es) && b <= |es| && (b < |es| ==> es[b].hash >= h) && (b > 0 ==> es[b - 1].hash < h)
    ensures LowerBound(es, h, 0) == b
  {
  }

  /** `t__binary_find`: some item with the hash code, or the complement of the lower bound. */
  method BinaryFind(es: seq<Entry>, h: nat) returns (p: int)
    requires Sorted(es)
    ensures p >= 0 ==> p < |es| && es[p].hash == h
    ensures p < 0 ==> Not(p) == LowerBound(es, h, 0) && forall i :: 0 <= i < |es| ==> es[i].hash != h
  {
    var low, high := 0, |es| - 1;
    while high >= low
      invariant 0 <= low <= |es| && -1 <= high < |es| && low <= high + 1
      invariant forall i :: 0 <= i < low ==> es[i].hash < h
      invariant forall i :: high < i < |es| ==> es[i].hash > h
      decreases high - low
    {
      var mid := (low + high + 1) / 2;
      if h < es[mid].hash {
        high := mid - 1;
      } else if h > es[mid].hash {
        low := mid + 1;
      } else {
        return mid;
      }
    }
    BoundUnique(es, h, low);
    return Not((low + high + 1) / 2);
  }

  /** The first part of `t__find`: a linear search if there are few items, or else a binary search
      from which it backs up. Either way it arrives at the lower bound. */
  method FindGroup(es: seq<Entry>, h: nat) returns (found: bool, first: nat)
    requires Sorted(es)
    ensures first == LowerBound(es, h, 0)
    ensures found <==> first < |es| && es[first].hash == h
  {
    if |es| < 10 {
      first := 0;
      while first < |es| && es[first].hash < h
        invariant first <= |es| && LowerBound(es, h, 0) == LowerBound(es, h, first)
      {
        first := first + 1;
      }
      found := first < |es| && es[first].hash == h;
    } else {
      var p := BinaryFind(es, h);
      if p < 0 {
        return false, Not(p);
      }
      first := p;
      while first > 0 && es[first - 1].hash == h
        invariant first < |es| && es[first].hash == h
      {
        first := first - 1;
      }
      if first > 0 { assert es[first - 1].hash <= es[first].hash; }
      BoundUnique(es, h, first);
      found := true;
    }
  }

  /** `t__find`. */
  method Find(es: seq<Entry>, key: Item, r: Rules) returns (p: int)
    requires Sorted(es) && RulesOk(r)
    ensures p == Place(es, key, r)
  {
    var h := r.hash(key);
    var found, first := FindGroup(es, h);
    if !found {
      return Not(first);
    }
    var i := first;
    if Refers(key) && r.isString(key.o) {
      while i < |es| && es[i].hash == h
        invariant first <= i <= |es| && FirstMatch(es, key, h, r, first) == FirstMatch(es, key, h, r, i)
      {
        if Refers(es[i].key) && es[i].key.o == key.o {
          return i;
        }
        i := i + 1;
      }
      return Not(first);
    }
    while i < |es| && es[i].hash == h
      invariant first <= i <= |es| && FirstMatch(es, key, h, r, first) == FirstMatch(es, key, h, r, i)
    {
      if Refers(key) {
        if Refers(es[i].key) && (es[i].key.o == key.o || r.same(key, es[i].key)) {
          return i;
        }
      } else if es[i].key == key {
        return i;
      }
      i := i + 1;
    }
    return Not(first);
  }

  // ---------------------------------------------------------------------------------------
  // A table as a map
  // ---------------------------------------------------------------------------------------

  ghost predicate HasAt(es: seq<Entry>, key: Item, r: Rules, i: int) {
    0 <= i < |es| && r.same(key, es[i].key)
  }

  lemma {:induction false} FirstMatchFinds(es: seq<Entry>, key: Item, h: nat, r: Rules, i: nat, k: nat)
    requires i <= k < |es| && r.same(key, es[k].key) && forall j :: i <= j <= k ==> es[j].hash == h
    ensures FirstMatch(es, key, h, r, i) >= 0
    decreases k - i
  {
    if i < k { FirstMatchFinds(es, key, h, r, i + 1, k); }
  }

  /** What is found is the one and only item with the key; if nothing is found, there is none. */
  lemma PlaceMeans(es: seq<Entry>, key: Item, r: Rules)
    requires Sound(es, r) && RulesOk(r)
    ensures forall i :: HasAt(es, key, r, i) <==> i >= 0 && i == Place(es, key, r)
  {
    var h := r.hash(key);
    var first := LowerBound(es, h, 0);
    var p := Place(es, key, r);
    forall i | HasAt(es, key, r, i) ensures i == p {
      assert r.same(key, es[i].key) && es[i].hash == h;
      forall j | first <= j <= i ensures es[j].hash == h {
        if j > first { assert es[first].hash <= es[j].hash; }
        if j < i { assert es[j].hash <= es[i].hash; }
      }
      FirstMatchFinds(es, key, h, r, first, i);
      assert p >= 0 && r.same(key, es[p].key);
      assert r.same(es[p].key, key) && r.same(es[p].key, es[i].key) && r.same(es[i].key, es[p].key);
    }
  }

  /** The value that the table has for a key (`t_getindex`). */
  function Lookup(es: seq<Entry>, key: Item, r: Rules): Option<Item> {
    var p := Place(es, key, r);
    if p >= 0 then Some(es[p].value) else None
  }

  lemma LookupAt(es: seq<Entry>, key: Item, r: Rules, i: nat)
    requires Sound(es, r) && RulesOk(r) && HasAt(es, key, r, i)
    ensures Lookup(es, key, r) == Some(es[i].value)
  {
    PlaceMeans(es, key, r);
  }

  lemma LookupNone(es: seq<Entry>, key: Item, r: Rules)
    requires Sound(es, r) && RulesOk(r) && forall i :: !HasAt(es, key, r, i)
    ensures Lookup(es, key, r) == None
  {
    assert !HasAt(es, key, r, Place(es, key, r));
  }

  /** `e` at position `p`, and everything from there on moved up. */
  function Inserted(es: seq<Entry>, p: nat, e: Entry): (r: seq<Entry>)
    requires p <= |es|
    ensures |r| == |es| + 1
  {
    es[..p] + [e] + es[p..]
  }

  function Removed(es: seq<Entry>, p: nat): (r: seq<Entry>)
    requires p < |es|
    ensures |r| == |es| - 1
  {
    es[..p] + es[p + 1..]
  }

  lemma InsertedAt(es: seq<Entry>, p: nat, e: Entry, i: nat)
    requires p <= |es| && i <= |es|
    ensures Inserted(es, p, e)[i] == if i < p then es[i] else if i == p then e else es[i - 1]
  {
  }

  lemma InsertSorted(es: seq<Entry>, p: nat, e: Entry)
    requires Sorted(es) && p == LowerBound(es, e.hash, 0)
    ensures Sorted(Inserted(es, p, e))
  {
    var es' := Inserted(es, p, e);
    forall i, j | 0 <= i < j < |es'| ensures es'[i].hash <= es'[j].hash {
      InsertedAt(es, p, e, i);
      InsertedAt(es, p, e, j);
      if i == p { assert es[p].hash <= es[j - 1].hash; }
    }
  }

  /** A new key goes where the search says, and the table is a table as before. */
  lemma InsertSound(es: seq<Entry>, key: Item, value: Item, r: Rules)
    requires Sound(es, r) && RulesOk(r) && Place(es, key, r) < 0
    ensures Sound(Inserted(es, Not(Place(es, key, r)), Entry(r.hash(key), key, value)), r)
  {
    hide Sorted, Inserted;
    var p, e := Not(Place(es, key, r)), Entry(r.hash(key), key, value);
    InsertSorted(es, p, e);
    var es' := Inserted(es, p, e);
    PlaceMeans(es, key, r);
    forall i | 0 <= i < |es'| ensures es'[i].hash == r.hash(es'[i].key) { InsertedAt(es, p, e, i); }
    forall i, j | 0 <= i < j < |es'| ensures !r.same(es'[i].key, es'[j].key) {
      InsertedAt(es, p, e, i);
      InsertedAt(es, p, e, j);
      assert !HasAt(es, key, r, j - 1) && !HasAt(es, key, r, i);
      SameTurned(r, es'[i].key, es'[j].key);
    }
  }

  lemma InsertLookup(es: seq<Entry>, key: Item, value: Item, r: Rules, k: Item)
    requires Sound(es, r) && RulesOk(r) && Place(es, key, r) < 0
    ensures Lookup(Inserted(es, Not(Place(es, key, r)), Entry(r.hash(key), key, value)), k, r) ==
            if r.same(key, k) then Some(value) else Lookup(es, k, r)
  {
    hide Place, Inserted, Sound, RulesOk;
    var p, e := Not(Place(es, key, r)), Entry(r.hash(key), key, value);
    var es' := Inserted(es, p, e);
    InsertSound(es, key, value, r);
    PlaceMeans(es, k, r);
    SameTurned(r, key, k);
    assert Place(es, k, r) >= 0 ==> HasAt(es, k, r, Place(es, k, r));
    if r.same(key, k) {
      InsertedAt(es, p, e, p);
      LookupAt(es', k, r, p);
    } else if Place(es, k, r) >= 0 {
      var q := Place(es, k, r);
      InsertedAt(es, p, e, if q < p then q else q + 1);
      LookupAt(es', k, r, if q < p then q else q + 1);
    } else {
      forall i ensures !HasAt(es', k, r, i) {
        if 0 <= i < |es'| {
          InsertedAt(es, p, e, i);
          assert !HasAt(es, k, r, if i < p then i else i - 1);
        }
      }
      LookupNone(es', k, r);
    }
  }

  /** Other values for some keys: the table is as sound as it was. */
  lemma ValuesSound(es: seq<Entry>, es': seq<Entry>, r: Rules)
    requires Sound(es, r) && |es'| == |es|
    requires forall i :: 0 <= i < |es| ==> es'[i].hash == es[i].hash && es'[i].key == es[i].key
    ensures Sound(es', r)
  {
  }

  lemma ReplaceLookup(es: seq<Entry>, key: Item, value: Item, r: Rules, k: Item)
    requires Sound(es, r) && RulesOk(r) && Place(es, key, r) >= 0
    ensures var p := Place(es, key, r);
      && Sound(es[p := es[p].(value := value)], r)
      && Lookup(es[p := es[p].(value := value)], k, r) == if r.same(key, k) then Some(value) else Lookup(es, k, r)
  {
    hide Place;
    var p := Place(es, key, r);
    var es' := es[p := es[p].(value := value)];
    ValuesSound(es, es', r);
    PlaceMeans(es, key, r);
    PlaceMeans(es, k, r);
    PlaceMeans(es', k, r);
    assert HasAt(es, key, r, p);
    SameThrough(r, key, es[p].key, k);
    SamePlace(es, es', k, r);
    assert Place(es, k, r) == p <==> HasAt(es, k, r, p);
  }

  lemma SamePlace(es: seq<Entry>, es': seq<Entry>, k: Item, r: Rules)
    requires Sound(es, r) && Sound(es', r) && RulesOk(r) && |es'| == |es|
    requires forall i :: 0 <= i < |es| ==> es'[i].key == es[i].key
    ensures Place(es, k, r) >= 0 ==> Place(es', k, r) == Place(es, k, r)
    ensures Place(es, k, r) < 0 ==> Place(es', k, r) < 0
  {
    hide Place;
    PlaceMeans(es, k, r);
    PlaceMeans(es', k, r);
    assert HasAt(es, k, r, Place(es, k, r)) ==> HasAt(es', k, r, Place(es, k, r));
    assert HasAt(es', k, r, Place(es', k, r)) ==> HasAt(es, k, r, Place(es', k, r));
  }

  lemma SameThrough(r: Rules, a: Item, b: Item, c: Item)
    requires RulesOk(r) && r.same(a, b)
    ensures r.same(a, c) <==> r.same(c, b)
  {
    if r.same(a, c) { assert r.same(c, a) && r.same(a, b); }
    if r.same(c, b) { assert r.same(b, c) && r.same(a, b); }
  }

  lemma RemovedAt(es: seq<Entry>, p: nat, i: nat)
    requires p < |es| && i < |es| - 1
    ensures Removed(es, p)[i] == es[if i < p then i else i + 1]
  {
  }

  lemma RemoveSound(es: seq<Entry>, p: nat, r: Rules)
    requires Sound(es, r) && p < |es|
    ensures Sound(Removed(es, p), r)
  {
    var es' := Removed(es, p);
    forall i | 0 <= i < |es'| ensures es'[i] == es[if i < p then i else i + 1] { RemovedAt(es, p, i); }
  }

  lemma RemoveLookup(es: seq<Entry>, key: Item, r: Rules, k: Item)
    requires Sound(es, r) && RulesOk(r) && Place(es, key, r) >= 0
    ensures Lookup(Removed(es, Place(es, key, r)), k, r) == if r.same(key, k) then None else Lookup(es, k, r)
  {
    hide Place, Removed, Sound, RulesOk;
    var p := Place(es, key, r);
    var es' := Removed(es, p);
    RemoveSound(es, p, r);
    PlaceMeans(es, k, r);
    PlaceMeans(es, key, r);
    assert HasAt(es, key, r, p);
    SameThrough(r, key, es[p].key, k);
    var q := Place(es, k, r);
    assert r.same(key, k) ==> HasAt(es, k, r, p);
    if !r.same(key, k) && q >= 0 {
      assert HasAt(es, k, r, q);
      assert q != p;
      RemovedAt(es, p, if q < p then q else q - 1);
      LookupAt(es', k, r, if q < p then q else q - 1);
    } else {
      forall i ensures !HasAt(es', k, r, i) {
        if 0 <= i < |es'| {
          RemovedAt(es, p, i);
          assert HasAt(es', k, r, i) ==> HasAt(es, k, r, if i < p then i else i + 1);
        }
      }
      LookupNone(es', k, r);
    }
  }

  /** `t__setindex`. */
  function SetEntry(es: seq<Entry>, key: Item, value: Item, r: Rules): seq<Entry> {
    var p := Place(es, key, r);
    if p >= 0 then es[p := es[p].(value := value)] else Inserted(es, Not(p), Entry(r.hash(key), key, value))
  }

  /** Setting a key changes what the table has for that key, and for no other. */
  lemma SetRefines(es: seq<Entry>, key: Item, value: Item, r: Rules, k: Item)
    requires Sound(es, r) && RulesOk(r)
    ensures Sound(SetEntry(es, key, value, r), r)
    ensures Lookup(SetEntry(es, key, value, r), k, r) == if r.same(key, k) then Some(value) else Lookup(es, k, r)
  {
    hide Sound, RulesOk, Place, Lookup, Inserted;
    if Place(es, key, r) >= 0 {
      ReplaceLookup(es, key, value, r, k);
    } else {
      InsertSound(es, key, value, r);
      InsertLookup(es, key, value, r, k);
    }
  }

  /** `insert_items`, as long as no object dies: copies of the items of another table, in their
      order. */
  function AddAll(es: seq<Entry>, src: seq<Entry>, n: nat, r: Rules): seq<Entry>
    requires n <= |src|
  {
    if n == 0 then es
    else SetEntry(AddAll(es, src, n - 1, r), AsCopied(src[n - 1].key), AsCopied(src[n - 1].value), r)
  }

  /** For the search it makes no difference whether a key is a copy. */
  lemma CopiedSame(i: Item, k: Item, r: Rules)
    requires RulesOk(r)
    ensures r.same(AsCopied(i), k) == r.same(i, k)
  {
    if i.IWeak? {
      assert r.same(i, AsCopied(i)) && r.same(AsCopied(i), i);
      if r.same(i, k) { assert r.same(AsCopied(i), k); }
      if r.same(AsCopied(i), k) { assert r.same(i, k); }
    }
  }

  /** Adding a table gives the union, in which copies of the values of the added one win. */
  lemma {:induction false} AddRefines(es: seq<Entry>, src: seq<Entry>, n: nat, r: Rules, k: Item)
    requires Sound(es, r) && Sound(src, r) && RulesOk(r) && n <= |src|
    ensures Sound(AddAll(es, src, n, r), r)
    ensures Lookup(AddAll(es, src, n, r), k, r) ==
            if Place(src, k, r) >= 0 && Place(src, k, r) < n then Some(AsCopied(src[Place(src, k, r)].value))
            else Lookup(es, k, r)
  {
    hide Lookup, SetEntry, RulesOk, AsCopied;
    PlaceMeans(src, k, r);
    if n > 0 {
      AddRefines(es, src, n - 1, r, k);
      SetRefines(AddAll(es, src, n - 1, r), AsCopied(src[n - 1].key), AsCopied(src[n - 1].value), r, k);
      CopiedSame(src[n - 1].key, k, r);
      SameTurned(r, src[n - 1].key, k);
      assert HasAt(src, k, r, n - 1) <==> r.same(src[n - 1].key, k);
    }
  }

  lemma SameTurned(r: Rules, a: Item, b: Item)
    requires RulesOk(r)
    ensures r.same(a, b) <==> r.same(b, a)
  {
  }
}
