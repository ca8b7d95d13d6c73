/** Tables (e_table.c): items in the order of their hash codes, in a block of slots with a key and
    a value for each. Keys and values may not move without the weak references among them being
    told. */
module Tables {
  import opened Values
  import opened Resize
  import opened WeakReferences
  import opened SlotBlocks
  import opened SlotAccounting
  import opened TableSearch

  const TABLE_SIZEBASE: nat := 4

  const XWRONGINDEX: int := 46

  // ---------------------------------------------------------------------------------------
  // Items in slots
  // ---------------------------------------------------------------------------------------

  /** The items that `n` pairs of slots hold. */
  function ReadEntries(c: Content, hashes: seq<nat>, at: Addr, n: nat): (r: seq<Entry>)
    ensures |r| == n
  {
    seq(n, i requires 0 <= i < n =>
      Entry(if i < |hashes| then hashes[i] else 0, ItemAt(c, at + 2 * i), ItemAt(c, at + 2 * i + 1)))
  }

  function ItemAt(c: Content, a: Addr): Item {
    if a in c then c[a] else INil
  }

  /** The same, straight from memory. */
  function ListEntries(slots: map<Addr, Slot>, hashes: seq<nat>, at: Addr, n: nat): seq<Entry>
    requires n <= |hashes| && forall a :: at <= a < at + 2 * n ==> a in slots
  {
    seq(n, i requires 0 <= i < n => Entry(hashes[i], ItemOf(slots[at + 2 * i]), ItemOf(slots[at + 2 * i + 1])))
  }

  lemma SameList(slots: map<Addr, Slot>, vecs: map<Obj, Vector>, used: set<Addr>, hashes: seq<nat>, at: Addr, n: nat)
    requires Exact(slots, vecs, used) && AllUsed(Contents(slots, used), at, at + 2 * n) && n <= |hashes|
    ensures forall a :: at <= a < at + 2 * n ==> a in slots
    ensures ListEntries(slots, hashes, at, n) == ReadEntries(Contents(slots, used), hashes, at, n)
  {
  }

  /** No key is a weak reference: when its object dies it would be nil, with a hash code that nil
      does not have. */
  ghost predicate StrongKeys(es: seq<Entry>) {
    forall i :: 0 <= i < |es| ==> !es[i].key.IWeak?
  }

  /** From the last one down, the `n` pairs below number `top` have moved up by one. */
  function PairsUp(v: View, at: Addr, top: nat, n: nat): View
    requires n <= top
  {
    if n == 0 then v
    else
      var w := PairsUp(v, at, top, n - 1);
      var k := at + 2 * (top - n);
      if k in w.content && k + 1 in w.content then Moved(Moved(w, k + 2, k), k + 3, k + 1) else w
  }

  lemma {:induction false} PairsUpIs(v: View, at: Addr, top: nat, n: nat)
    requires n <= top && AllUsed(v.content, at + 2 * (top - n), at + 2 * top)
    requires AllFree(v.content, at + 2 * top, at + 2 * top + 2)
    ensures PairsUp(v, at, top, n).rc == v.rc
    ensures PairsMoved(v.content, PairsUp(v, at, top, n).content, at, top, n)
  {
    hide PairsMoved;
    NoPairsMoved(v.content, at, top);
    if n > 0 {
      PairsUpIs(v, at, top, n - 1);
      PairsMovedNext(v.content, PairsUp(v, at, top, n - 1).content, at, top, n - 1);
    }
  }

  lemma NoPairsMoved(c: Content, at: Addr, top: nat)
    requires AllFree(c, at + 2 * top, at + 2 * top + 2)
    ensures PairsMoved(c, c, at, top, 0)
  {
  }

  ghost predicate PairsMoved(c: Content, w: Content, at: Addr, top: nat, n: nat)
    requires n <= top
  {
    && AllFree(w, at + 2 * (top - n), at + 2 * (top - n) + 2)
    && (forall a :: at + 2 * (top - n) + 2 <= a < at + 2 * top + 2 ==> a in w && a - 2 in c && w[a] == c[a - 2])
    && (forall a :: a < at + 2 * (top - n) || a >= at + 2 * top + 2 ==>
          (a in w <==> a in c) && (a in c ==> w[a] == c[a]))
  }

  lemma PairsMovedNext(c: Content, w: Content, at: Addr, top: nat, n: nat)
    requires n < top && AllUsed(c, at + 2 * (top - n - 1), at + 2 * (top - n)) && PairsMoved(c, w, at, top, n)
    ensures var k := at + 2 * (top - n - 1);
      && k in w && k + 1 in w && k + 2 !in w && k + 3 !in w
      && var w1 := w[k + 2 := w[k]] - {k};
      && k + 1 in w1 && k + 3 !in w1 && PairsMoved(c, w1[k + 3 := w1[k + 1]] - {k + 1}, at, top, n + 1)
  {
    var k := at + 2 * (top - n - 1);
    assert k in c && k + 1 in c;
    var w2 := w[k + 2 := w[k]] - {k};
    w2 := w2[k + 3 := w2[k + 1]] - {k + 1};
    assert forall a :: a in w2 <==> a == k + 2 || a == k + 3 || (a in w && a != k && a != k + 1);
    forall a | k + 2 <= a < at + 2 * top + 2 ensures a in w2 && a - 2 in c && w2[a] == c[a - 2] {
      if a >= k + 4 { assert a in w && a - 2 in c && w[a] == c[a - 2]; }
    }
    forall a | a < k || a >= at + 2 * top + 2 ensures (a in w2 <==> a in c) && (a in c ==> w2[a] == c[a]) {
      assert a in w <==> a in c;
    }
    assert AllFree(w2, k, k + 2) && at + 2 * (top - (n + 1)) == k;
    assert PairsMoved(c, w2, at, top, n + 1);
  }

  lemma PairsUpNext(v: View, at: Addr, top: nat, n: nat)
    requires n < top && AllUsed(v.content, at + 2 * (top - n - 1), at + 2 * top)
    requires AllFree(v.content, at + 2 * top, at + 2 * top + 2)
    ensures var w, k := PairsUp(v, at, top, n), at + 2 * (top - n - 1);
      && k in w.content && k + 2 !in w.content
      && var w1 := Moved(w, k + 2, k);
      && k + 1 in w1.content && k + 3 !in w1.content && PairsUp(v, at, top, n + 1) == Moved(w1, k + 3, k + 1)
  {
    hide PairsMoved;
    PairsUpIs(v, at, top, n);
    PairsMovedNext(v.content, PairsUp(v, at, top, n).content, at, top, n);
  }

  lemma {:induction false} PairsUpKeeps(v: View, at: Addr, top: nat, n: nat)
    requires n <= top && AllUsed(v.content, at + 2 * (top - n), at + 2 * top)
    requires AllFree(v.content, at + 2 * top, at + 2 * top + 2)
    ensures Keeps(v, PairsUp(v, at, top, n)) && PairsUp(v, at, top, n).rc == v.rc
  {
    hide Keeps, PairsUp;
    PairsUpIs(v, at, top, n);
    if n == 0 {
      NoPairs(v, at, top);
      KeepsSelf(v);
    } else {
      PairsUpKeeps(v, at, top, n - 1);
      PairsUpNext(v, at, top, n - 1);
      PairMovedKeeps(v, PairsUp(v, at, top, n - 1), at + 2 * (top - n));
    }
  }

  lemma PairMovedKeeps(v: View, w: View, k: Addr)
    requires Keeps(v, w) && k in w.content && k + 2 !in w.content
    requires k + 1 in Moved(w, k + 2, k).content && k + 3 !in Moved(w, k + 2, k).content
    ensures Keeps(v, Moved(Moved(w, k + 2, k), k + 3, k + 1))
  {
    hide Keeps, Moved;
    var w1 := Moved(w, k + 2, k);
    MovedKeeps(w, k + 2, k);
    MovedKeeps(w1, k + 3, k + 1);
    KeepsOn(v, w, w1);
    KeepsOn(v, w1, Moved(w1, k + 3, k + 1));
  }

  lemma NoPairs(v: View, at: Addr, top: nat)
    ensures PairsUp(v, at, top, 0) == v
  {
  }

  // ---------------------------------------------------------------------------------------
  // Tables
  // ---------------------------------------------------------------------------------------

  class Table {
    const mem: Memory
    const rules: Rules
    var items: Addr
    var hashes: seq<nat>
    var length: nat
    var asize: nat

    /** The block and the items in it, with `n` of them in use. */
    ghost predicate Block(n: nat)
      reads this, mem
    {
      mem.Valid() && |hashes| == asize && n <= asize && Laid(mem.V().content, items, 2 * n, 2 * asize)
    }

    ghost predicate Valid()
      reads this, mem
    {
      Block(length) && RulesOk(rules) && Sound(Entries(), rules) && StrongKeys(Entries())
    }

    ghost function Entries(): (r: seq<Entry>)
      reads this, mem
      requires Block(length)
      ensures |r| == length
    {
      ReadEntries(mem.V().content, hashes, items, length)
    }

    ghost function Others(): Content
      reads this, mem
      requires mem.Valid()
    {
      Outside(mem.V().content, items, 2 * asize)
    }

    /** `t_construct` without initializers. */
    constructor (mem: Memory, rules: Rules)
      requires mem.Valid() && RulesOk(rules)
      ensures this.mem == mem && this.rules == rules && Valid() && Entries() == []
    {
      this.mem := mem;
      this.rules := rules;
      items, hashes, length, asize := 0, [], 0, 0;
    }

    /** A table with the items that have been put at `at`. */
    constructor Around(mem: Memory, rules: Rules, at: Addr, hashes: seq<nat>)
      requires mem.Valid() && RulesOk(rules) && AllUsed(mem.V().content, at, at + 2 * |hashes|)
      requires var es := ReadEntries(mem.V().content, hashes, at, |hashes|); Sound(es, rules) && StrongKeys(es)
      ensures this.mem == mem && this.rules == rules && Valid()
      ensures Entries() == ReadEntries(mem.V().content, hashes, at, |hashes|)
    {
      this.mem := mem;
      this.rules := rules;
      this.hashes := hashes;
      items, length, asize := at, |hashes|, |hashes|;
    }

    /** `t_setsize`. `n` items are in use, and stay; `at` is the address that `realloc` returns. */
    method SetSize(ghost n: nat, newlength: nat, at: Addr)
      requires Block(n) && n == (if length < newlength then length else newlength)
      requires CanMoveTo(mem.V().content, items, 2 * asize, at, 2 * CalcResize(TABLE_SIZEBASE, asize, newlength))
      modifies this, mem
      ensures Block(n) && length == newlength <= asize && mem.rc == old(mem.rc)
      ensures asize == CalcResize(TABLE_SIZEBASE, old(asize), newlength)
      ensures items == if asize == old(asize) then old(items) else at
      ensures ReadEntries(mem.V().content, hashes, items, n) == old(ReadEntries(mem.V().content, hashes, items, n))
      ensures Others() == old(Others()) && Keeps(old(mem.V()), mem.V())
    {
      hide ReadEntries, Outside, CalcResize, Exact, Contents, Laid, CanMoveTo, Read, MovableRange, Keeps;
      KeepsSelf(mem.V());
      var size := Calculate(TABLE_SIZEBASE, asize, newlength);
      if size == asize {
        length := newlength;
        return;
      }
      var used := if length < newlength then length else newlength;
      ghost var v := mem.V();
      if at != items {
        BlockMoved(v, items, 2 * used, 2 * asize, at, 2 * size);
        MovedRangeKeeps(v, at, items, 2 * used, 2 * used);
        MoveSlots(mem, at, items, 2 * used);
      } else {
        BlockKept(v, items, 2 * used, 2 * asize, 2 * size);
      }
      SameEntries(v.content, hashes, items, mem.V().content, Resized(hashes, size), at, used);
      hashes := Resized(hashes, size);
      items := at;
      asize := size;
      length := newlength;
    }

    /** The items, as the search functions read them. */
    function Items(): (r: seq<Entry>)
      reads this, mem
      requires Block(length)
      ensures r == Entries()
    {
      SameList(mem.slots, mem.vecs, mem.used, hashes, items, length);
      ListEntries(mem.slots, hashes, items, length)
    }

    /** `t_getindex`, with a copy of the value in slot `to`. */
    method GetIndex(key: Item, to: Addr) returns (x: int)
      requires Valid() && to !in mem.V().content && !(items <= to < items + 2 * asize)
      modifies mem
      ensures Valid() && Entries() == old(Entries())
      ensures x == if Lookup(Entries(), key, rules).Some? then 0 else XWRONGINDEX
      ensures x != 0 ==> mem.V() == old(mem.V())
      ensures x == 0 ==> var v := Lookup(Entries(), key, rules).value;
                && mem.V().content == old(mem.V()).content[to := AsCopied(v)]
                && mem.rc == if v.IStrong? || v.IWeak? then MoreOwners(old(mem.rc), v.o) else old(mem.rc)
      ensures Keeps(old(mem.V()), mem.V())
    {
      hide ReadEntries, Exact, Contents, Laid, Sound, RulesOk, Place, Keeps;
      ghost var v := mem.V();
      KeepsSelf(v);
      var p := Find(Items(), key, rules) by { SoundSorted(Entries(), rules); }
      if p < 0 {
        return XWRONGINDEX;
      }
      ValueAt(mem.slots, mem.vecs, mem.used, hashes, items, length, asize, p);
      CopyOfSlotKeeps(v, v, to, items + 2 * p + 1, SourceOf(mem.slots[items + 2 * p + 1]));
      mem.Copy(to, SourceOf(mem.slots[items + 2 * p + 1]));
      Elsewhere(v.content, mem.V().content, hashes, items, length, asize, to);
      x := 0;
    }

    /** `t__setindex`. A value that is replaced is disowned first, which may make other values nil
        that were weak references to its object; keys and hash codes stay. */
    method SetIndex(key: Source, value: Source, at: Addr)
      requires Valid() && !key.FromUnwired?
      requires CanMoveTo(mem.V().content, items, 2 * asize, at, 2 * CalcResize(TABLE_SIZEBASE, asize, length + 1))
      modifies this, mem
      ensures Valid()
      ensures var es, p := old(Entries()), Place(old(Entries()), KeyItem(key), rules);
        && (p < 0 ==> Entries() == SetEntry(es, CopyItem(key), CopyItem(value), rules) && Others() == old(Others())
                      && mem.rc == CopyOwners(CopyOwners(old(mem.rc), key), value))
        && (p >= 0 ==>
              var w := Disowned(old(mem.V()), items + 2 * p + 1);
              && items == old(items) && SameKeys(es, ReadEntries(w.content, old(hashes), items, length))
              && Entries() == SetEntry(ReadEntries(w.content, old(hashes), items, length), CopyItem(key),
                 CopyItem(value), rules)
              && Others() == Outside(w.content, items, 2 * asize) && mem.rc == CopyOwners(w.rc, value))
      ensures var v, p := old(mem.V()), Place(old(Entries()), KeyItem(key), rules);
        Copyable(v, key) && Copyable(if p >= 0 then Disowned(v, old(items) + 2 * p + 1) else v, value) ==>
          Keeps(v, mem.V())
    {
      hide ReadEntries, Outside, CalcResize, Exact, Contents, Laid, CanMoveTo, CopyOwners, CopyItem, Sound, RulesOk,
           Place, SetEntry, Disowned, Inserted, SameKeys, Keeps;
      KeySame(Entries(), key, rules);
      var p := Find(Items(), KeyItem(key), rules) by { SoundSorted(Entries(), rules); }
      if p >= 0 {
        Replace(p, key, value);
      } else {
        PlaceBound(Entries(), CopyItem(key), rules);
        SetIsInsert(Entries(), key, value, rules);
        InsertItem(Not(p), key, value, rules.hash(KeyItem(key)), at);
      }
    }

    method Replace(p: nat, ghost key: Source, value: Source)
      requires Valid() && p == Place(Entries(), CopyItem(key), rules) && p < length
      modifies mem
      ensures Valid()
      ensures var w := Disowned(old(mem.V()), items + 2 * p + 1);
        && AllUsed(w.content, items, items + 2 * length)
           && SameKeys(old(Entries()), ReadEntries(w.content, hashes, items, length))
        && Entries() == SetEntry(ReadEntries(w.content, hashes, items, length), CopyItem(key), CopyItem(value), rules)
        && Others() == Outside(w.content, items, 2 * asize) && mem.rc == CopyOwners(w.rc, value)
        && (Copyable(w, value) ==> Keeps(old(mem.V()), mem.V()))
    {
      hide ReadEntries, Outside, Exact, Contents, Laid, CopyOwners, CopyItem, Sound, RulesOk, Place, SetEntry,
           Disowned, Copied, Keeps;
      ghost var v := mem.V();
      var a := items + 2 * p + 1;
      LaidRange(v.content, items, 2 * length, 2 * asize);
      GoneKeeps(v, a);
      mem.DisownForget(a);
      CopyKeeps(v, mem.V(), a, value);
      mem.Copy(a, value);
      ghost var w := Disowned(v, a);
      LaidSame(v.content, w.content, items, 2 * length, 2 * asize);
      KeysKept(v, hashes, items, length, a);
      ValueReplaced(w, hashes, items, length, asize, p, value);
      ReplaceIsSet(old(Entries()), ReadEntries(w.content, hashes, items, length), p, CopyItem(key), CopyItem(value),
        rules);
    }

    /** `t_insert`: only keys that the table does not have can be inserted. */
    method Insert(key: Source, value: Source, at: Addr) returns (x: int)
      requires Valid() && !key.FromUnwired?
      requires CanMoveTo(mem.V().content, items, 2 * asize, at, 2 * CalcResize(TABLE_SIZEBASE, asize, length + 1))
      modifies this, mem
      ensures Valid()
      ensures x == if Place(old(Entries()), CopyItem(key), rules) >= 0 then XWRONGINDEX else 0
      ensures x != 0 ==> Entries() == old(Entries()) && mem.V() == old(mem.V())
      ensures x == 0 ==>
                && Entries() == SetEntry(old(Entries()), CopyItem(key), CopyItem(value), rules)
                && Others() == old(Others())
                && (Copyable(old(mem.V()), key) && Copyable(old(mem.V()), value) ==> Keeps(old(mem.V()), mem.V()))
    {
      hide ReadEntries, Outside, CalcResize, Exact, Contents, Laid, CanMoveTo, CopyOwners, CopyItem, Sound, RulesOk,
           Place, SetEntry, Inserted, Keeps;
      KeySame(Entries(), key, rules);
      var p := Find(Items(), KeyItem(key), rules) by { SoundSorted(Entries(), rules); }
      if p >= 0 {
        return XWRONGINDEX;
      }
      PlaceBound(Entries(), CopyItem(key), rules);
      SetIsInsert(Entries(), key, value, rules);
      InsertItem(Not(p), key, value, rules.hash(KeyItem(key)), at);
      x := 0;
    }

    /** `t_delete` of one key. The key and the value are disowned first. */
    method Delete(key: Item, at: Addr) returns (x: int)
      requires Valid()
      requires length > 0 ==>
                 CanMoveTo(mem.V().content, items, 2 * asize, at, 2 * CalcResize(TABLE_SIZEBASE, asize, length - 1))
      modifies this, mem
      ensures Valid()
      ensures x == if Place(old(Entries()), key, rules) < 0 then XWRONGINDEX else 0
      ensures x != 0 ==> Entries() == old(Entries()) && mem.V() == old(mem.V())
      ensures x == 0 ==>
                var p := Place(old(Entries()), key, rules);
                var w := DisownedRange(old(mem.V()), old(items) + 2 * p, old(items) + 2 * p + 2);
                && 0 <= p < old(length)
                && SameKeys(old(Entries()), ReadEntries(w.content, old(hashes), old(items), old(length)))
                && Entries() == Removed(ReadEntries(w.content, old(hashes), old(items), old(length)), p)
                && Others() == Outside(w.content, old(items), 2 * old(asize)) && mem.rc == w.rc
      ensures Keeps(old(mem.V()), mem.V())
    {
      hide ReadEntries, Outside, CalcResize, Exact, Contents, Laid, CanMoveTo, Sound, RulesOk, Place, Removed,
           DisownedRange, SameKeys, Keeps;
      KeepsSelf(mem.V());
      var p := Find(Items(), key, rules) by { SoundSorted(Entries(), rules); }
      PlaceBound(Entries(), key, rules);
      if p < 0 {
        return XWRONGINDEX;
      }
      ghost var v, w := mem.V(), DisownedRange(mem.V(), items + 2 * p, items + 2 * p + 2);
      ghost var es, hashes0, n := Entries(), hashes, length;
      TakeOut(p);
      RemovedStaysSound(es, ReadEntries(w.content, hashes0, items, n), p, rules);
      CanStillMove(v.content, w.content, mem.V().content, items, 2 * asize, at,
        2 * CalcResize(TABLE_SIZEBASE, asize, length - 1));
      ghost var u := mem.V();
      SetSize(length - 1, length - 1, at);
      KeepsOn(v, u, mem.V());
      x := 0;
    }

    /** `t_delete`, before the block is resized. */
    method TakeOut(p: nat)
      requires Valid() && p < length
      modifies `hashes, mem
      ensures Block(length - 1)
      ensures var w := DisownedRange(old(mem.V()), items + 2 * p, items + 2 * p + 2);
        && SameKeys(old(Entries()), ReadEntries(w.content, old(hashes), items, length))
        && ReadEntries(mem.V().content, hashes, items, length - 1)
           == Removed(ReadEntries(w.content, old(hashes), items, length), p)
        && Others() == Outside(w.content, items, 2 * asize) && mem.rc == w.rc
      ensures Keeps(old(mem.V()), mem.V())
    {
      hide ReadEntries, Outside, Exact, Contents, Laid, Sound, RulesOk, Removed, DisownedRange, SameKeys,
           MovableRange, MovedRange, Dropped, ValuesDeleted, Read, Keeps;
      ghost var v, w := mem.V(), DisownedRange(mem.V(), items + 2 * p, items + 2 * p + 2);
      ghost var hashes0, n := hashes, length;
      LaidRange(v.content, items, 2 * length, 2 * asize);
      DisownedRangeKeeps(v, items + 2 * p, items + 2 * p + 2);
      DisownSlots(mem, items + 2 * p, items + 2 * p + 2);
      LaidSame(v.content, w.content, items, 2 * length, 2 * asize);
      BothDisowned(v, hashes, items, length, p);
      Deleted(w, items, 2 * length, 2 * asize, 2 * p, 2);
      MovedRangeKeeps(mem.V(), items + 2 * p, items + 2 * p + 2, 2 * length - 2 * p - 2, 2 * length - 2 * p - 2);
      KeepsOn(v, mem.V(), MovedRange(mem.V(), items + 2 * p, items + 2 * p + 2, 2 * length - 2 * p - 2));
      MoveSlots(mem, items + 2 * p, items + 2 * p + 2, 2 * length - 2 * p - 2);
      DeletedMeans(v, w, mem.V(), items, 2 * length, 2 * asize, 2 * p, 2);
      HashesDown(p);
      EntryRemoved(w.content, hashes0, mem.V().content, hashes, items, n, p);
    }

    /** The hash codes after number `p` move down. */
    method HashesDown(p: nat)
      requires p < length <= |hashes|
      modifies `hashes
      ensures |hashes| == |old(hashes)| && hashes[..length - 1] == old(hashes[..p]) + old(hashes[p + 1..length])
    {
      ghost var was := hashes;
      var i := p;
      while i < length - 1
        invariant p <= i <= length - 1 && |hashes| == |was|
        invariant forall j :: 0 <= j < p ==> hashes[j] == was[j]
        invariant forall j :: p <= j < i ==> hashes[j] == was[j + 1]
        invariant forall j :: i <= j < |was| ==> hashes[j] == was[j]
      {
        hashes := hashes[i := hashes[i + 1]];
        i := i + 1;
      }
    }

    /** `t_delete` of everything. */
    method Clear(at: Addr)
      requires Valid()
      requires CanMoveTo(mem.V().content, items, 2 * asize, at, 2 * CalcResize(TABLE_SIZEBASE, asize, 0))
      modifies this, mem
      ensures Valid() && Entries() == []
      ensures var w := DisownedRange(old(mem.V()), old(items), old(items) + 2 * old(length));
        Others() == Outside(w.content, old(items), 2 * old(asize)) && mem.rc == w.rc
      ensures Keeps(old(mem.V()), mem.V())
    {
      hide ReadEntries, Outside, CalcResize, Exact, Contents, Laid, CanMoveTo, DisownedRange, Dropped, ValuesDeleted,
           Read, Keeps;
      ghost var v, w := mem.V(), DisownedRange(mem.V(), items, items + 2 * length);
      LaidRange(v.content, items, 2 * length, 2 * asize);
      DisownedRangeKeeps(v, items, items + 2 * length);
      DisownSlots(mem, items, items + 2 * length);
      ghost var u := mem.V();
      LaidSame(v.content, w.content, items, 2 * length, 2 * asize);
      AllDeleted(w, items, 2 * length, 2 * asize);
      CanStillMove(v.content, w.content, mem.V().content, items, 2 * asize, at,
        2 * CalcResize(TABLE_SIZEBASE, asize, 0));
      SetSize(0, 0, at);
      KeepsOn(v, u, mem.V());
    }

    /** `t__clone`. */
    method Clone(at: Addr) returns (clone: Table)
      requires Valid() && AllFree(mem.V().content, at, at + 2 * length)
      requires at + 2 * length <= items || items + 2 * asize <= at
      modifies mem
      ensures Valid() && Entries() == old(Entries())
      ensures fresh(clone) && clone.mem == mem && clone.rules == rules && clone.Valid() && clone.Entries() == Entries()
      ensures mem.rc == ItemOwners(old(mem.rc), Read(old(mem.V()).content, items, 2 * length))
      ensures Keeps(old(mem.V()), mem.V())
    {
      hide ReadEntries, Outside, Exact, Contents, Sound, RulesOk, Read, ClonedRange, ItemOwners, Keeps;
      ghost var v := mem.V();
      WholeArray(v, items, 2 * length, 2 * asize, at, 0, 2 * length);
      ClonedRangeKeeps(v, at, items, 2 * length);
      CloneSlots(mem, at, items, 2 * length);
      SameEntries(v.content, hashes, items, mem.V().content, hashes, items, length);
      SameEntries(v.content, hashes, items, mem.V().content, hashes[..length], at, length);
      clone := new Table.Around(mem, rules, at, hashes[..length]);
    }

    /** `insert_item`. */
    method InsertItem(pos: nat, key: Source, value: Source, h: nat, at: Addr)
      requires Block(length) && pos <= length
      requires CanMoveTo(mem.V().content, items, 2 * asize, at, 2 * CalcResize(TABLE_SIZEBASE, asize, length + 1))
      modifies this, mem
      ensures Block(length) && length == old(length) + 1 && Others() == old(Others())
      ensures asize == CalcResize(TABLE_SIZEBASE, old(asize), length)
      ensures items == if asize == old(asize) then old(items) else at
      ensures Entries() == Inserted(old(Entries()), pos, Entry(h, CopyItem(key), CopyItem(value)))
      ensures mem.rc == CopyOwners(CopyOwners(old(mem.rc), key), value)
      ensures Copyable(old(mem.V()), key) && Copyable(old(mem.V()), value) ==> Keeps(old(mem.V()), mem.V())
    {
      hide ReadEntries, Outside, CalcResize, Exact, Contents, Laid, CanMoveTo, PairsUp, Copied, CopyOwners, CopyItem,
           Inserted, Keeps, Copyable;
      ghost var v0 := mem.V();
      SetSize(length, length + 1, at);
      var n := length - 1;
      ghost var v, hashes0 := mem.V(), hashes;
      RoomForOne(v.content, items, n, asize, pos);
      PairsUpKeeps(v, items, n, n - pos);
      MoveUp(n, pos);
      KeepsOn(v0, v, mem.V());
      PairFree(v, items, n, pos);
      CopyElsewhere(mem.V(), items + 2 * pos, key, items + 2 * pos + 1);
      CopiesKeep(v0, mem.V(), items + 2 * pos, key, value);
      mem.Copy(items + 2 * pos, key);
      mem.Copy(items + 2 * pos + 1, value);
      hashes := hashes[pos := h];
      ItemInserted(v, hashes0, items, n, asize, pos, key, value, h, hashes);
    }

    /** The moving loop of `insert_item`: a new last pair is free, and pair `pos` will be. */
    method MoveUp(n: nat, pos: nat)
      requires mem.Valid() && |hashes| > n && pos <= n
      requires AllUsed(mem.V().content, items + 2 * pos, items + 2 * n)
      requires AllFree(mem.V().content, items + 2 * n, items + 2 * n + 2)
      modifies `hashes, mem
      ensures mem.Valid() && mem.V() == PairsUp(old(mem.V()), items, n, n - pos)
      ensures |hashes| == |old(hashes)| && hashes[..pos] == old(hashes[..pos])
              && hashes[pos + 1..n + 1] == old(hashes[pos..n])
    {
      hide Exact, Contents, PairsUp;
      ghost var v, was := mem.V(), hashes;
      NoPairs(v, items, n);
      var i := n;
      while i > pos
        invariant pos <= i <= n && mem.Valid() && mem.V() == PairsUp(v, items, n, n - i)
        invariant |hashes| == |was| && (forall j :: 0 <= j < i ==> hashes[j] == was[j])
        invariant forall j :: i < j <= n ==> hashes[j] == was[j - 1]
      {
        PairsUpNext(v, items, n, n - i);
        hashes := hashes[i := hashes[i - 1]];
        mem.Move(items + 2 * i, items + 2 * (i - 1));
        mem.Move(items + 2 * i + 1, items + 2 * (i - 1) + 1);
        i := i - 1;
      }
      MovedUp(was, hashes, pos, n);
    }
  }

  lemma ValueAt(slots: map<Addr, Slot>, vecs: map<Obj, Vector>, used: set<Addr>, hashes: seq<nat>, at: Addr, n: nat,
                asize: nat, p: nat)
    requires Exact(slots, vecs, used) && Laid(Contents(slots, used), at, 2 * n, 2 * asize) && p < n <= |hashes|
    ensures var a := at + 2 * p + 1;
      && a in slots && ItemOf(slots[a]) == ReadEntries(Contents(slots, used), hashes, at, n)[p].value
      && a in Contents(slots, used) && Contents(slots, used)[a] == ItemOf(slots[a])
  {
    hide Exact;
    assert at + 2 * p + 1 in used;
    ContentAt(slots, vecs, used, at + 2 * p + 1);
  }

  /** A key and a value. */
  lemma CopiesKeep(u: View, v: View, a: Addr, key: Source, value: Source)
    requires Keeps(u, v) && u.rc == v.rc && a !in v.content && a + 1 !in Copied(v, a, key).content
    ensures Copyable(u, key) && Copyable(u, value) ==> Keeps(u, Copied(Copied(v, a, key), a + 1, value))
  {
    hide Keeps;
    CopyKeeps(u, v, a, key);
    if Copyable(u, key) { CopyKeeps(u, Copied(v, a, key), a + 1, value); }
  }

  /** A slot that is no part of a block. */
  lemma Elsewhere(c: Content, c': Content, hashes: seq<nat>, at: Addr, n: nat, asize: nat, to: Addr)
    requires Laid(c, at, 2 * n, 2 * asize) && n <= |hashes| && !(at <= to < at + 2 * asize)
    requires c'.Keys == c.Keys + {to} && forall a :: a in c && a != to ==> c'[a] == c[a]
    ensures Laid(c', at, 2 * n, 2 * asize) && ReadEntries(c', hashes, at, n) == ReadEntries(c, hashes, at, n)
  {
  }

  lemma MovedUp(was: seq<nat>, now: seq<nat>, pos: nat, n: nat)
    requires |now| == |was| && pos <= n < |was| && (forall j :: 0 <= j < pos ==> now[j] == was[j])
    requires forall j :: pos < j <= n ==> now[j] == was[j - 1]
    ensures now[..pos] == was[..pos] && now[pos + 1..n + 1] == was[pos..n]
  {
  }

  /** The item to search for, and the one that is stored as a key. */
  function KeyItem(src: Source): Item {
    match src
    case FromPlain(i) => if i.IPlain? then i else INil
    case FromStrong(o) => IStrong(o)
    case FromWired(o) => IWeak(o)
    case FromUnwired(o) => IWeak(o)
  }

  /** The same keys and hash codes; the values may differ. */
  ghost predicate SameKeys(es: seq<Entry>, es': seq<Entry>) {
    |es'| == |es| && forall i :: 0 <= i < |es| ==> es'[i].hash == es[i].hash && es'[i].key == es[i].key
  }

  lemma SoundSorted(es: seq<Entry>, r: Rules)
    requires Sound(es, r)
    ensures Sorted(es)
  {
  }

  lemma PlaceBound(es: seq<Entry>, key: Item, r: Rules)
    ensures -|es| - 1 <= Place(es, key, r) < |es|
  {
  }

  /** It makes no difference for the search that a weak reference is stored as a strong one. */
  lemma KeySame(es: seq<Entry>, key: Source, r: Rules)
    requires RulesOk(r) && !key.FromUnwired?
    ensures r.hash(KeyItem(key)) == r.hash(CopyItem(key)) && Place(es, KeyItem(key), r) == Place(es, CopyItem(key), r)
    ensures !CopyItem(key).IWeak?
  {
    assert r.same(KeyItem(key), CopyItem(key));
    MatchSame(es, KeyItem(key), CopyItem(key), r.hash(CopyItem(key)), r, LowerBound(es, r.hash(CopyItem(key)), 0));
  }

  lemma {:induction false} MatchSame(es: seq<Entry>, a: Item, b: Item, h: nat, r: Rules, i: nat)
    requires RulesOk(r) && r.same(a, b) && i <= |es|
    ensures FirstMatch(es, a, h, r, i) == FirstMatch(es, b, h, r, i)
    decreases |es| - i
  {
    if i < |es| {
      SameThrough(r, a, b, es[i].key);
      SameTurned(r, es[i].key, b);
      MatchSame(es, a, b, h, r, i + 1);
    }
  }

  lemma SetIsInsert(es: seq<Entry>, key: Source, value: Source, r: Rules)
    requires Sound(es, r) && RulesOk(r) && StrongKeys(es) && !key.FromUnwired? && Place(es, CopyItem(key), r) < 0
    ensures var p := Place(es, CopyItem(key), r);
      && 0 <= Not(p) <= |es|
      && SetEntry(es, CopyItem(key), CopyItem(value), r)
         == Inserted(es, Not(p), Entry(r.hash(KeyItem(key)), CopyItem(key), CopyItem(value)))
      && Sound(SetEntry(es, CopyItem(key), CopyItem(value), r), r)
      && StrongKeys(SetEntry(es, CopyItem(key), CopyItem(value), r))
  {
    hide Sound, RulesOk, Place, CopyItem, KeyItem;
    PlaceBound(es, CopyItem(key), r);
    KeySame(es, key, r);
    var p := Place(es, CopyItem(key), r);
    var e := Entry(r.hash(CopyItem(key)), CopyItem(key), CopyItem(value));
    InsertSound(es, CopyItem(key), CopyItem(value), r);
    forall i | 0 <= i <= |es| ensures !Inserted(es, Not(p), e)[i].key.IWeak? { InsertedAt(es, Not(p), e, i); }
  }

  /** What disowning a value does to the items: no key changes. */
  lemma KeysKept(v: View, hashes: seq<nat>, at: Addr, n: nat, a: Addr)
    requires AllUsed(v.content, at, at + 2 * n) && n <= |hashes| && StrongKeys(ReadEntries(v.content, hashes, at, n))
    requires a in v.content && (v.content[a].IWeak? ==> a >= at && (a - at) % 2 == 1)
    ensures AllUsed(Disowned(v, a).content, at, at + 2 * n)
    ensures SameKeys(ReadEntries(v.content, hashes, at, n), ReadEntries(Disowned(v, a).content, hashes, at, n))
  {
    var es := ReadEntries(v.content, hashes, at, n);
    assert AllUsed(Disowned(v, a).content, at, at + 2 * n);
    forall i | 0 <= i < n ensures Disowned(v, a).content[at + 2 * i] == v.content[at + 2 * i] {
      assert !es[i].key.IWeak?;
    }
  }

  lemma ValueReplaced(w: View, hashes: seq<nat>, at: Addr, n: nat, asize: nat, p: nat, value: Source)
    requires Laid(w.content, at, 2 * n, 2 * asize) && p < n <= asize == |hashes|
    ensures var r := Copied(Dropped(w, at + 2 * p + 1, at + 2 * p + 2), at + 2 * p + 1, value);
      && r.rc == CopyOwners(w.rc, value) && Laid(r.content, at, 2 * n, 2 * asize)
      && AllUsed(w.content, at, at + 2 * n) && AllUsed(r.content, at, at + 2 * n)
      && Outside(r.content, at, 2 * asize) == Outside(w.content, at, 2 * asize)
      && var es := ReadEntries(w.content, hashes, at, n);
      ReadEntries(r.content, hashes, at, n) == es[p := es[p].(value := CopyItem(value))]
  {
    hide CopyOwners, CopyItem;
  }

  lemma ReplaceIsSet(es: seq<Entry>, es0: seq<Entry>, p: nat, key: Item, value: Item, r: Rules)
    requires Sound(es, r) && RulesOk(r) && StrongKeys(es) && SameKeys(es, es0) && p == Place(es, key, r)
    ensures p < |es0| && SetEntry(es0, key, value, r) == es0[p := es0[p].(value := value)]
    ensures Sound(SetEntry(es0, key, value, r), r) && StrongKeys(SetEntry(es0, key, value, r))
  {
    hide Sound, RulesOk, Place;
    PlaceBound(es, key, r);
    ValuesSound(es, es0, r);
    SamePlace(es, es0, key, r);
    ReplaceLookup(es0, key, value, r, key);
  }

  /** Disowning a key, and then its value, changes no key. */
  lemma BothDisowned(v: View, hashes: seq<nat>, at: Addr, n: nat, p: nat)
    requires AllUsed(v.content, at, at + 2 * n) && n <= |hashes| && p < n
             && StrongKeys(ReadEntries(v.content, hashes, at, n))
    ensures SameKeys(ReadEntries(v.content, hashes, at, n),
                     ReadEntries(DisownedRange(v, at + 2 * p, at + 2 * p + 2).content, hashes, at, n))
  {
    hide ReadEntries, Disowned;
    var w := Disowned(v, at + 2 * p);
    KeyNotWeak(v, hashes, at, n, p);
    KeysKept(v, hashes, at, n, at + 2 * p);
    StillStrong(ReadEntries(v.content, hashes, at, n), ReadEntries(w.content, hashes, at, n));
    KeysKept(w, hashes, at, n, at + 2 * p + 1);
    TwoDisowned(v, at + 2 * p);
  }

  lemma KeyNotWeak(v: View, hashes: seq<nat>, at: Addr, n: nat, p: nat)
    requires AllUsed(v.content, at, at + 2 * n) && p < n && StrongKeys(ReadEntries(v.content, hashes, at, n))
    ensures !v.content[at + 2 * p].IWeak?
  {
    assert !ReadEntries(v.content, hashes, at, n)[p].key.IWeak?;
  }

  lemma StillStrong(es: seq<Entry>, es': seq<Entry>)
    requires StrongKeys(es) && SameKeys(es, es')
    ensures StrongKeys(es')
  {
  }

  lemma TwoDisowned(v: View, a: Addr)
    requires a in v.content && a + 1 in v.content
    ensures DisownedRange(v, a, a + 2) == Disowned(Disowned(v, a), a + 1)
  {
    hide Disowned;
    var w := Disowned(v, a);
    DisownedNext(v, a, a + 2);
    DisownedNext(w, a + 1, a + 2);
    DisownedDone(Disowned(w, a + 1), a + 2, a + 2);
  }

  lemma RemovedStaysSound(es: seq<Entry>, es0: seq<Entry>, p: nat, r: Rules)
    requires Sound(es, r) && StrongKeys(es) && SameKeys(es, es0) && p < |es|
    ensures Sound(Removed(es0, p), r) && StrongKeys(Removed(es0, p))
  {
    hide Sound;
    ValuesSound(es, es0, r);
    RemoveSound(es0, p, r);
    forall i | 0 <= i < |es| - 1 ensures !Removed(es0, p)[i].key.IWeak? { RemovedAt(es0, p, i); }
  }

  lemma EntryRemoved(c: Content, hashes: seq<nat>, c': Content, hashes': seq<nat>, at: Addr, n: nat, p: nat)
    requires p < n <= |hashes| == |hashes'|
    requires AllUsed(c, at, at + 2 * n) && AllUsed(c', at, at + 2 * n - 2)
    requires Read(c', at, 2 * n - 2) == Read(c, at, 2 * n)[..2 * p] + Read(c, at, 2 * n)[2 * p + 2..]
    requires hashes'[..n - 1] == hashes[..p] + hashes[p + 1..n]
    ensures ReadEntries(c', hashes', at, n - 1) == Removed(ReadEntries(c, hashes, at, n), p)
  {
    var es, es' := ReadEntries(c, hashes, at, n), ReadEntries(c', hashes', at, n - 1);
    var r, r' := Read(c, at, 2 * n), Read(c', at, 2 * n - 2);
    var t := r[..2 * p] + r[2 * p + 2..];
    forall i | 0 <= i < n - 1 ensures es'[i] == Removed(es, p)[i] {
      RemovedAt(es, p, i);
      var j := if i < p then i else i + 1;
      assert hashes'[..n - 1][i] == hashes[j];
      assert r'[2 * i] == t[2 * i] == r[2 * j] && r'[2 * i + 1] == t[2 * i + 1] == r[2 * j + 1];
    }
  }

  lemma AllDeleted(w: View, at: Addr, length: nat, max: nat)
    requires Laid(w.content, at, length, max)
    ensures var d := Dropped(w, at, at + length);
      d.rc == w.rc && Laid(d.content, at, 0, max) && Outside(d.content, at, max) == Outside(w.content, at, max)
  {
  }

  function Resized(hashes: seq<nat>, n: nat): (r: seq<nat>)
    ensures |r| == n
  {
    if n <= |hashes| then hashes[..n] else hashes + seq(n - |hashes|, _ => 0)
  }

  lemma SameEntries(c: Content, hashes: seq<nat>, at: Addr, c': Content, hashes': seq<nat>, at': Addr, n: nat)
    requires AllUsed(c, at, at + 2 * n) && n <= |hashes| && AllUsed(c', at', at' + 2 * n) && n <= |hashes'|
    requires Read(c', at', 2 * n) == Read(c, at, 2 * n) && hashes'[..n] == hashes[..n]
    ensures ReadEntries(c', hashes', at', n) == ReadEntries(c, hashes, at, n)
  {
    forall i | 0 <= i < n
      ensures c'[at' + 2 * i] == c[at + 2 * i] && c'[at' + 2 * i + 1] == c[at + 2 * i + 1] && hashes'[i] == hashes[i]
    {
      assert Read(c', at', 2 * n)[2 * i] == Read(c, at, 2 * n)[2 * i];
      assert Read(c', at', 2 * n)[2 * i + 1] == Read(c, at, 2 * n)[2 * i + 1];
      assert hashes'[..n][i] == hashes[..n][i];
    }
  }

  lemma RoomForOne(c: Content, at: Addr, n: nat, asize: nat, pos: nat)
    requires Laid(c, at, 2 * n, 2 * asize) && pos <= n < asize
    ensures AllUsed(c, at, at + 2 * n) && AllUsed(c, at + 2 * pos, at + 2 * n) && AllFree(c, at + 2 * n, at + 2 * n + 2)
  {
  }

  lemma PairFree(v: View, at: Addr, n: nat, pos: nat)
    requires pos <= n && AllUsed(v.content, at + 2 * pos, at + 2 * n) && AllFree(v.content, at + 2 * n, at + 2 * n + 2)
    ensures at + 2 * pos !in PairsUp(v, at, n, n - pos).content
            && at + 2 * pos + 1 !in PairsUp(v, at, n, n - pos).content
  {
    hide PairsUp;
    PairsUpIs(v, at, n, n - pos);
  }

  lemma CopyElsewhere(v: View, a: Addr, src: Source, b: Addr)
    requires b !in v.content && b != a
    ensures b !in Copied(v, a, src).content
  {
  }

  /** `w` is `c` with a key and a value put into pair `pos`, and the pairs from there on moved up. */
  ghost predicate PairPut(c: Content, w: Content, at: Addr, n: nat, pos: nat, key: Item, value: Item) {
    && at + 2 * pos in w && w[at + 2 * pos] == key && at + 2 * pos + 1 in w && w[at + 2 * pos + 1] == value
    && (forall a :: at + 2 * pos + 2 <= a < at + 2 * n + 2 ==> a in w && a - 2 in c && w[a] == c[a - 2])
    && (forall a :: a < at + 2 * pos || a >= at + 2 * n + 2 ==> (a in w <==> a in c) && (a in c ==> w[a] == c[a]))
  }

  lemma PairIsPut(v: View, at: Addr, n: nat, pos: nat, key: Source, value: Source)
    requires pos <= n && AllUsed(v.content, at + 2 * pos, at + 2 * n) && AllFree(v.content, at + 2 * n, at + 2 * n + 2)
    ensures var w := Copied(Copied(PairsUp(v, at, n, n - pos), at + 2 * pos, key), at + 2 * pos + 1, value);
      && w.rc == CopyOwners(CopyOwners(v.rc, key), value)
      && PairPut(v.content, w.content, at, n, pos, CopyItem(key), CopyItem(value))
  {
    hide CopyOwners, CopyItem, PairsUp, PairsMoved, PairPut;
    PairsUpIs(v, at, n, n - pos);
    var w := PairsUp(v, at, n, n - pos).content;
    PairIsPutIn(v.content, w, w[at + 2 * pos := CopyItem(key)][at + 2 * pos + 1 := CopyItem(value)], at, n, pos,
                CopyItem(key), CopyItem(value));
  }

  lemma PairIsPutIn(c: Content, w: Content, r: Content, at: Addr, n: nat, pos: nat, key: Item, value: Item)
    requires pos <= n && PairsMoved(c, w, at, n, n - pos)
    requires r == w[at + 2 * pos := key][at + 2 * pos + 1 := value]
    ensures PairPut(c, r, at, n, pos, key, value)
  {
    assert n - (n - pos) == pos;
    forall a | at + 2 * pos + 2 <= a < at + 2 * n + 2 ensures a in r && a - 2 in c && r[a] == c[a - 2] {
      assert a in w;
    }
    forall a | a < at + 2 * pos || a >= at + 2 * n + 2 ensures (a in r <==> a in c) && (a in c ==> r[a] == c[a]) {
      assert a in w <==> a in c;
    }
  }

  lemma PairPutLaid(c: Content, w: Content, at: Addr, n: nat, asize: nat, pos: nat, key: Item, value: Item)
    requires Laid(c, at, 2 * n, 2 * asize) && pos <= n < asize && PairPut(c, w, at, n, pos, key, value)
    ensures Laid(w, at, 2 * (n + 1), 2 * asize) && Outside(w, at, 2 * asize) == Outside(c, at, 2 * asize)
    ensures AllUsed(c, at, at + 2 * n) && AllUsed(w, at, at + 2 * (n + 1))
  {
  }

  /** What inserting an item comes to. */
  lemma ItemInserted(v: View, hashes: seq<nat>, at: Addr, n: nat, asize: nat, pos: nat, key: Source, value: Source,
                     h: nat, hashes': seq<nat>)
    requires Laid(v.content, at, 2 * n, 2 * asize) && pos <= n < asize == |hashes| == |hashes'|
    requires hashes'[..pos] == hashes[..pos] && hashes'[pos] == h && hashes'[pos + 1..n + 1] == hashes[pos..n]
    ensures var w := Copied(Copied(PairsUp(v, at, n, n - pos), at + 2 * pos, key), at + 2 * pos + 1, value);
      && w.rc == CopyOwners(CopyOwners(v.rc, key), value)
      && Laid(w.content, at, 2 * (n + 1), 2 * asize)
         && Outside(w.content, at, 2 * asize) == Outside(v.content, at, 2 * asize)
      && ReadEntries(w.content, hashes', at, n + 1) ==
         Inserted(ReadEntries(v.content, hashes, at, n), pos, Entry(h, CopyItem(key), CopyItem(value)))
  {
    hide CopyOwners, CopyItem, PairsUp, Copied, Laid, ReadEntries, Inserted, PairPut;
    RoomForOne(v.content, at, n, asize, pos);
    PairIsPut(v, at, n, pos, key, value);
    var w := Copied(Copied(PairsUp(v, at, n, n - pos), at + 2 * pos, key), at + 2 * pos + 1, value);
    PairPutLaid(v.content, w.content, at, n, asize, pos, CopyItem(key), CopyItem(value));
    EntriesInserted(v.content, hashes, w.content, hashes', at, n, pos, Entry(h, CopyItem(key), CopyItem(value)));
  }

  lemma EntriesInserted(c: Content, hashes: seq<nat>, w: Content, hashes': seq<nat>, at: Addr, n: nat, pos: nat,
                        e: Entry)
    requires AllUsed(c, at, at + 2 * n) && AllUsed(w, at, at + 2 * (n + 1)) && pos <= n < |hashes| == |hashes'|
    requires hashes'[..pos] == hashes[..pos] && hashes'[pos] == e.hash && hashes'[pos + 1..n + 1] == hashes[pos..n]
    requires PairPut(c, w, at, n, pos, e.key, e.value)
    ensures ReadEntries(w, hashes', at, n + 1) == Inserted(ReadEntries(c, hashes, at, n), pos, e)
  {
    var es, es' := ReadEntries(c, hashes, at, n), ReadEntries(w, hashes', at, n + 1);
    forall i | 0 <= i < n + 1 ensures es'[i] == Inserted(es, pos, e)[i] {
      InsertedAt(es, pos, e, i);
      if i < pos {
        assert hashes'[..pos][i] == hashes[..pos][i];
      } else if i > pos {
        assert hashes'[pos + 1..n + 1][i - pos - 1] == hashes[pos..n][i - pos - 1];
        assert w[at + 2 * i] == c[at + 2 * i - 2] && w[at + 2 * i + 1] == c[at + 2 * i + 1 - 2];
      }
    }
  }
}
