/** Arrays of values that may be weak references (e_array.c). The values are in a block of slots
    that can move when the array is resized. */
module Arrays {
  import opened Resize
  import opened WeakReferences
  import opened SlotBlocks
  import opened SlotAccounting

  const ARRAY_SIZEBASE: nat := 8

  const XLOWINDEX: int := 44
  const XHIGHINDEX: int := 45
  const XWRONGINDEX: int := 46

  class Array {
    const mem: Memory
    var values: Addr
    var length: nat
    var maxlength: nat

    ghost predicate Valid()
      reads this, mem
    {
      mem.Valid() && Laid(mem.V().content, values, length, maxlength)
    }

    ghost function Items(): (r: seq<Item>)
      reads this, mem
      requires Valid()
      ensures |r| == length
    {
      Read(mem.V().content, values, length)
    }

    /** All slots that are in use elsewhere. */
    ghost function Others(): Content
      reads this, mem
      requires mem.Valid()
    {
      Outside(mem.V().content, values, maxlength)
    }

    /** An array of `n` values that have been put at `at`. */
    constructor Around(mem: Memory, at: Addr, n: nat)
      requires mem.Valid() && AllUsed(mem.V().content, at, at + n)
      ensures this.mem == mem && Valid() && (values, length, maxlength) == (at, n, n)
      ensures Items() == Read(mem.V().content, at, n)
    {
      this.mem := mem;
      values, length, maxlength := at, n, n;
    }

    /** `a_construct` without values. */
    constructor (mem: Memory, at: Addr)
      requires mem.Valid() && AllFree(mem.V().content, at, at + ARRAY_SIZEBASE)
      ensures this.mem == mem && Valid() && Items() == [] && values == at && maxlength == ARRAY_SIZEBASE
    {
      this.mem := mem;
      values := at;
      maxlength := ARRAY_SIZEBASE;
      length := 0;
    }

    /** `a_setsize`. `at` is the address that `realloc` returns. */
    method SetSize(newsize: nat, at: Addr)
      requires Valid() && newsize >= length
      requires CanMoveTo(mem.V().content, values, maxlength, at, CalcResize(ARRAY_SIZEBASE, maxlength, newsize))
      modifies `values, `maxlength, mem
      ensures Valid() && Items() == old(Items()) && Others() == old(Others()) && mem.rc == old(mem.rc)
      ensures maxlength == CalcResize(ARRAY_SIZEBASE, old(maxlength), newsize)
      ensures Keeps(old(mem.V()), mem.V())
    {
      hide Read, Outside, CalcResize, Exact, Contents, Keeps;
      KeepsSelf(mem.V());
      var n := Calculate(ARRAY_SIZEBASE, maxlength, newsize);
      if n == maxlength {
        return;
      }
      if at != values {
        MoveBlock(n, at);
      } else {
        BlockKept(mem.V(), values, length, maxlength, n);
        maxlength := n;
      }
    }

    /** The block has moved: so have the values, and weak references must be relocated. */
    method MoveBlock(n: nat, at: Addr)
      requires Valid() && length <= n && at != values && CanMoveTo(mem.V().content, values, maxlength, at, n)
      modifies `values, `maxlength, mem
      ensures Valid() && Items() == old(Items()) && Others() == old(Others()) && mem.rc == old(mem.rc)
      ensures maxlength == n && Keeps(old(mem.V()), mem.V())
    {
      hide Read, Outside, Laid, CanMoveTo, MovableRange, MovedRange, Exact, Contents, Keeps;
      BlockMoved(mem.V(), values, length, maxlength, at, n);
      MovedRangeKeeps(mem.V(), at, values, length, length);
      MoveSlots(mem, at, values, length);
      values := at;
      maxlength := n;
    }

    /** The moving loop of `a_insert`, from the last value down to number `i`. */
    method MoveUp(i: nat)
      requires mem.Valid() && i <= length && AllUsed(mem.V().content, values, values + length)
      requires values + length !in mem.V().content
      modifies mem
      ensures mem.Valid() && mem.V() == ShiftedUp(old(mem.V()), values + length, length - i)
    {
      hide ShiftedUp, Exact, Contents;
      ghost var v, top := mem.V(), values + length;
      var mv := length;
      NoShift(v, top);
      while mv > i
        invariant i <= mv <= length && mem.Valid() && mem.V() == ShiftedUp(v, top, length - mv)
      {
        ShiftedUpNext(v, top, length - mv);
        mem.Move(values + mv, values + mv - 1);
        mv := mv - 1;
      }
    }

    /** `a_insert`. */
    method Insert(i: nat, src: Source, at: Addr)
      requires Valid() && i <= length
      requires CanMoveTo(mem.V().content, values, maxlength, at, CalcResize(ARRAY_SIZEBASE, maxlength, length + 1))
      modifies this, mem
      ensures Valid() && Items() == old(Items())[..i] + [CopyItem(src)] + old(Items())[i..]
      ensures Others() == old(Others()) && mem.rc == CopyOwners(old(mem.rc), src)
      ensures Copyable(old(mem.V()), src) ==> Keeps(old(mem.V()), mem.V())
    {
      hide Read, Outside, CanMoveTo, CalcResize, Laid, CopyItem, Copied, CopyOwners, ShiftedUp, Exact, Contents, Keeps,
           Copyable;
      ghost var v0 := mem.V();
      SetSize(length + 1, at);
      ghost var v := mem.V();
      LaidRange(v.content, values, length, maxlength);
      ShiftedUpFree(v, values, length, i);
      MoveUp(i);
      ShiftedUpKeeps(v, values + length, length - i);
      KeepsOn(v0, v, mem.V());
      CopyKeeps(v0, mem.V(), values + i, src);
      mem.Copy(values + i, src);
      Inserted(v, values, length, maxlength, i, src);
      length := length + 1;
    }

    /** `a_set_index`: a value past the end makes the array longer, and what is skipped is nil. */
    method SetIndex(i: nat, src: Source, at: Addr)
      requires Valid()
      requires i >= length ==>
                 CanMoveTo(mem.V().content, values, maxlength, at, CalcResize(ARRAY_SIZEBASE, maxlength, i + 1))
      modifies this, mem
      ensures Valid()
      ensures i >= old(length) ==>
                && Items() == old(Items()) + seq(i - old(length), _ => INil) + [CopyItem(src)]
                && Others() == old(Others()) && mem.rc == CopyOwners(old(mem.rc), src)
      ensures i < old(length) ==>
                var w := Disowned(old(mem.V()), old(values) + i);
                && values == old(values) && maxlength == old(maxlength) && length == old(length)
                && Items() == Read(w.content, values, length)[i := CopyItem(src)]
                && Others() == Outside(w.content, values, maxlength) && mem.rc == CopyOwners(w.rc, src)
      ensures Copyable(if i < old(length) then Disowned(old(mem.V()), old(values) + i) else old(mem.V()), src) ==>
                Keeps(old(mem.V()), mem.V())
    {
      hide CanMoveTo, CalcResize, CopyItem, CopyOwners, Disowned, Laid, Read, Outside, Exact, Contents, Keeps,
           Copyable;
      if i >= length {
        SetNew(i, src, at);
      } else {
        Assign(i, src);
      }
    }

    /** The part of `a_set_index` that initializes. */
    method SetNew(i: nat, src: Source, at: Addr)
      requires Valid() && i >= length
      requires CanMoveTo(mem.V().content, values, maxlength, at, CalcResize(ARRAY_SIZEBASE, maxlength, i + 1))
      modifies this, mem
      ensures Valid() && Items() == old(Items()) + seq(i - old(length), _ => INil) + [CopyItem(src)]
      ensures Others() == old(Others()) && mem.rc == CopyOwners(old(mem.rc), src)
      ensures Copyable(old(mem.V()), src) ==> Keeps(old(mem.V()), mem.V())
    {
      hide CanMoveTo, CalcResize, CopyItem, CopyOwners, Laid, Read, Outside, Cleared, Copied, Exact, Contents, Keeps,
           Copyable;
      ghost var v0 := mem.V();
      SetSize(i + 1, at);
      ghost var v := mem.V();
      ClearedFree(v, values, length, maxlength, i);
      Clear(i);
      ClearedKeeps(v, values + length, i - length);
      KeepsOn(v0, v, mem.V());
      CopyKeeps(v0, mem.V(), values + i, src);
      mem.Copy(values + i, src);
      Appended(v, values, length, maxlength, i, src);
      length := i + 1;
    }

    /** The part of `a_set_index` that assigns. */
    method Assign(i: nat, src: Source)
      requires Valid() && i < length
      modifies mem
      ensures Valid()
      ensures var w := Disowned(old(mem.V()), values + i);
                && Items() == Read(w.content, values, length)[i := CopyItem(src)]
                && Others() == Outside(w.content, values, maxlength) && mem.rc == CopyOwners(w.rc, src)
      ensures Copyable(Disowned(old(mem.V()), values + i), src) ==> Keeps(old(mem.V()), mem.V())
    {
      hide CopyItem, CopyOwners, Disowned, Read, Outside, Copied, Laid, Exact, Contents, Keeps;
      ghost var v := mem.V();
      LaidRange(v.content, values, length, maxlength);
      GoneKeeps(v, values + i);
      mem.DisownForget(values + i);
      CopyKeeps(v, mem.V(), values + i, src);
      mem.Copy(values + i, src);
      LaidSame(v.content, Disowned(v, values + i).content, values, length, maxlength);
      Replaced(Disowned(v, values + i), values, length, maxlength, i, src);
    }

    /** `a_delete`: the values from `i0` to `i1` are disowned, in this order, and those after them
        move down. With nothing to delete from an empty array, `i1` is -1. */
    method Delete(i0: nat, i1: int, at: Addr)
      requires Valid() && (i0 <= i1 < length || (length == 0 && i0 == 0 && i1 == -1))
      requires CanMoveTo(mem.V().content, values, maxlength, at,
                         CalcResize(ARRAY_SIZEBASE, maxlength, length - (i1 - i0 + 1)))
      modifies this, mem
      ensures Valid()
      ensures var w := DisownedRange(old(mem.V()), old(values) + i0, old(values) + i1 + 1);
                && AllUsed(w.content, old(values), old(values) + old(length))
                && Items() == Read(w.content, old(values), old(length))[..i0]
                              + Read(w.content, old(values), old(length))[i1 + 1..]
                && Others() == Outside(w.content, old(values), old(maxlength)) && mem.rc == w.rc
      ensures Keeps(old(mem.V()), mem.V())
    {
      hide CanMoveTo, CalcResize, Laid, Read, Outside, DisownedRange, Exact, Contents, AllUsed, AllFree, ValuesDeleted,
           Keeps;
      ghost var v, w := mem.V(), DisownedRange(mem.V(), values + i0, values + i1 + 1);
      DeleteValues(i0, i1);
      DeletedMeans(v, w, mem.V(), values, old(length), maxlength, i0, i1 - i0 + 1);
      CanStillMove(v.content, w.content, mem.V().content, values, maxlength, at,
        CalcResize(ARRAY_SIZEBASE, maxlength, length));
      ghost var u := mem.V();
      SetSize(length, at);
      KeepsOn(v, u, mem.V());
    }

    /** `a_delete`, before the block is resized. */
    method DeleteValues(i0: nat, i1: int)
      requires Valid() && (i0 <= i1 < length || (length == 0 && i0 == 0 && i1 == -1))
      modifies `length, mem
      ensures mem.Valid() && length == old(length) - (i1 - i0 + 1)
      ensures Laid(DisownedRange(old(mem.V()), values + i0, values + i1 + 1).content, values, old(length), maxlength)
      ensures ValuesDeleted(DisownedRange(old(mem.V()), values + i0, values + i1 + 1), mem.V(), values, old(length),
              maxlength,
                            i0, i1 - i0 + 1)
      ensures Keeps(old(mem.V()), mem.V())
    {
      hide CanMoveTo, CalcResize, Laid, Read, Outside, MovedRange, DisownedRange, Dropped, Exact, Contents,
           MovableRange, ValuesDeleted, Keeps;
      ghost var v, w := mem.V(), DisownedRange(mem.V(), values + i0, values + i1 + 1);
      var n := i1 - i0 + 1;
      LaidRange(v.content, values, length, maxlength);
      DisownedRangeKeeps(v, values + i0, values + i1 + 1);
      DisownSlots(mem, values + i0, values + i1 + 1);
      LaidSame(v.content, w.content, values, length, maxlength);
      Deleted(w, values, length, maxlength, i0, n);
      if n > 0 {
        MovedRangeKeeps(mem.V(), values + i0, values + i0 + n, length - i0 - n, length - i0 - n);
        KeepsOn(v, mem.V(), MovedRange(mem.V(), values + i0, values + i0 + n, length - i0 - n));
        MoveSlots(mem, values + i0, values + i0 + n, length - i0 - n);
      }
      length := length - n;
    }

    /** `a__clone`. */
    method Clone(at: Addr) returns (clone: Array)
      requires Valid() && AllFree(mem.V().content, at, at + length)
      requires at + length <= values || values + maxlength <= at
      modifies mem
      ensures Valid() && Items() == old(Items())
      ensures fresh(clone) && clone.mem == mem && clone.Valid() && clone.Items() == Items() && clone.values == at
      ensures mem.rc == ItemOwners(old(mem.rc), Items())
      ensures Outside(Outside(mem.V().content, at, length), values, maxlength) == old(Others())
      ensures Keeps(old(mem.V()), mem.V())
    {
      hide Read, Outside, ClonedRange, ItemOwners, Exact, Contents, Keeps;
      ghost var v := mem.V();
      WholeArray(v, values, length, maxlength, at, 0, length);
      ClonedRangeKeeps(v, at, values, length);
      CloneSlots(mem, at, values, length);
      clone := new Array.Around(mem, at, length);
    }

    /** `a_copy`: part of an array, as a new one. */
    method Copy(start: int, n: int, at: Addr) returns (x: int, copy: Array?)
      requires Valid() && (n > 0
               ==> AllFree(mem.V().content, at, at + n) && (at + n <= values || values + maxlength <= at))
      modifies mem
      ensures x == if start < 0 then XLOWINDEX else if start > length then XHIGHINDEX
                   else if n < 0 then XWRONGINDEX else if start + n > length then XHIGHINDEX else 0
      ensures x != 0 ==> copy == null && Valid() && mem.V() == old(mem.V())
      ensures x == 0 ==> copy != null && fresh(copy) && copy.mem == mem && copy.Valid() && Valid()
      ensures x == 0 ==>
                && copy.Items() == old(Items())[start..start + n] && Items() == old(Items())
                && mem.rc == ItemOwners(old(mem.rc), copy.Items())
      ensures Keeps(old(mem.V()), mem.V())
    {
      hide Read, Outside, ClonedRange, ItemOwners, Exact, Contents, Keeps;
      KeepsSelf(mem.V());
      if start < 0 {
        return XLOWINDEX, null;
      } else if start > length {
        return XHIGHINDEX, null;
      }
      if n < 0 {
        return XWRONGINDEX, null;
      } else if start + n > length {
        return XHIGHINDEX, null;
      }
      ghost var v := mem.V();
      WholeArray(v, values, length, maxlength, at, start, n);
      ClonedRangeKeeps(v, at, values + start, n);
      CloneSlots(mem, at, values + start, n);
      var c := new Array.Around(mem, at, n);
      return 0, c;
    }

    /** The `memset` in `a_set_index`. */
    method Clear(i: nat)
      requires mem.Valid() && i >= length && AllFree(mem.V().content, values + length, values + i)
      modifies mem
      ensures mem.Valid() && mem.V() == Cleared(old(mem.V()), values + length, i - length)
    {
      hide Cleared, Exact, Contents;
      ghost var v := mem.V();
      NothingCleared(v, values + length);
      for k := length to i
        invariant mem.Valid() && mem.V() == Cleared(v, values + length, k - length)
      {
        ClearedNext(v, values + length, k - length);
        mem.Put(values + k, Blank);
      }
    }
  }

  /** The `n` slots below `top` are moved up by one, from the top down. */
  function ShiftedUp(v: View, top: Addr, n: nat): View
    requires n <= top
  {
    if n == 0 then v
    else
      var w := ShiftedUp(v, top, n - 1);
      if top - n in w.content then Moved(w, top - n + 1, top - n) else w
  }

  lemma {:induction false} ShiftedUpIs(v: View, top: Addr, n: nat)
    requires n <= top && AllUsed(v.content, top - n, top) && top !in v.content
    ensures var w := ShiftedUp(v, top, n);
      && w.rc == v.rc && top - n !in w.content
      && (forall a :: top - n < a <= top ==> a in w.content && w.content[a] == v.content[a - 1])
      && (forall a :: a < top - n || a > top ==>
            (a in w.content <==> a in v.content) && (a in v.content ==> w.content[a] == v.content[a]))
  {
    if n > 0 { ShiftedUpIs(v, top, n - 1); }
  }

  lemma {:induction false} ShiftedUpKeeps(v: View, top: Addr, n: nat)
    requires n <= top && AllUsed(v.content, top - n, top) && top !in v.content
    ensures Keeps(v, ShiftedUp(v, top, n)) && ShiftedUp(v, top, n).rc == v.rc
  {
    hide Keeps;
    KeepsSelf(v);
    if n > 0 {
      ShiftedUpKeeps(v, top, n - 1);
      ShiftedUpIs(v, top, n - 1);
      MovedKeeps(ShiftedUp(v, top, n - 1), top - n + 1, top - n);
      KeepsOn(v, ShiftedUp(v, top, n - 1), ShiftedUp(v, top, n));
    }
  }

  /** `n` slots from `at` on are nil. */
  function Cleared(v: View, at: Addr, n: nat): View {
    if n == 0 then v
    else
      var w := Cleared(v, at, n - 1);
      w.(content := w.content[at + n - 1 := INil])
  }

  lemma {:induction false} ClearedIs(v: View, at: Addr, n: nat)
    ensures var w := Cleared(v, at, n);
      && w.rc == v.rc
      && (forall a :: at <= a < at + n ==> a in w.content && w.content[a] == INil)
      && (forall a :: !(at <= a < at + n) ==>
            (a in w.content <==> a in v.content) && (a in v.content ==> w.content[a] == v.content[a]))
  {
    if n > 0 { ClearedIs(v, at, n - 1); }
  }

  lemma {:induction false} ClearedKeeps(v: View, at: Addr, n: nat)
    requires AllFree(v.content, at, at + n)
    ensures Keeps(v, Cleared(v, at, n)) && Cleared(v, at, n).rc == v.rc
  {
    hide Keeps;
    KeepsSelf(v);
    if n > 0 {
      ClearedKeeps(v, at, n - 1);
      ClearedIs(v, at, n - 1);
      NilKeeps(Cleared(v, at, n - 1), at + n - 1);
      KeepsOn(v, Cleared(v, at, n - 1), Cleared(v, at, n));
    }
  }

  lemma ClearedNext(v: View, at: Addr, n: nat)
    ensures var w := Cleared(v, at, n);
      && Cleared(v, at, n + 1) == w.(content := w.content[at + n := INil])
         && (at + n !in v.content ==> at + n !in w.content)
  {
    ClearedIs(v, at, n);
  }

  lemma Appended(v: View, at: Addr, length: nat, max: nat, i: nat, src: Source)
    requires Laid(v.content, at, length, max) && length <= i < max
    ensures var w := Copied(Cleared(v, at + length, i - length), at + i, src);
      && w.rc == CopyOwners(v.rc, src) && Laid(w.content, at, i + 1, max)
      && Read(w.content, at, i + 1) == Read(v.content, at, length) + seq(i - length, _ => INil) + [CopyItem(src)]
      && Outside(w.content, at, max) == Outside(v.content, at, max)
  {
    hide CopyItem, Cleared, CopyOwners;
    ClearedIs(v, at + length, i - length);
  }

  lemma ClearedFree(v: View, at: Addr, length: nat, max: nat, i: nat)
    requires Laid(v.content, at, length, max) && length <= i < max
    ensures AllFree(v.content, at + length, at + i) && at + i !in Cleared(v, at + length, i - length).content
  {
    hide Cleared;
    ClearedIs(v, at + length, i - length);
  }

  lemma Replaced(v: View, at: Addr, length: nat, max: nat, i: nat, src: Source)
    requires Laid(v.content, at, length, max) && i < length
    ensures var w := Copied(Dropped(v, at + i, at + i + 1), at + i, src);
      && w.rc == CopyOwners(v.rc, src) && Laid(w.content, at, length, max)
      && Read(w.content, at, length) == Read(v.content, at, length)[i := CopyItem(src)]
      && Outside(w.content, at, max) == Outside(v.content, at, max)
  {
    hide CopyItem, CopyOwners;
  }

  lemma ShiftedUpFree(v: View, at: Addr, length: nat, i: nat)
    requires AllUsed(v.content, at, at + length) && at + length !in v.content && i <= length
    ensures at + i !in ShiftedUp(v, at + length, length - i).content
  {
    hide ShiftedUp;
    ShiftedUpIs(v, at + length, length - i);
  }

  lemma ShiftedUpNext(v: View, top: Addr, n: nat)
    requires n < top && AllUsed(v.content, top - n - 1, top) && top !in v.content
    ensures var w := ShiftedUp(v, top, n);
      && top - n - 1 in w.content && top - n !in w.content
      && ShiftedUp(v, top, n + 1) == Moved(w, top - n, top - n - 1)
  {
    ShiftedUpIs(v, top, n);
  }

  /** A value was put in between: what was from its position on has moved up by one. */
  ghost predicate MadeRoom(c: Content, w: Content, at: Addr, length: nat, i: nat, item: Item) {
    && (forall a :: at + i < a <= at + length ==> a in w && a - 1 in c && w[a] == c[a - 1])
    && at + i in w && w[at + i] == item
    && (forall a :: a < at + i || a > at + length ==> (a in w <==> a in c) && (a in c ==> w[a] == c[a]))
  }

  lemma InsertedCells(v: View, at: Addr, length: nat, i: nat, src: Source)
    requires AllUsed(v.content, at, at + length) && at + length !in v.content && i <= length
    ensures var w := Copied(ShiftedUp(v, at + length, length - i), at + i, src);
      w.rc == CopyOwners(v.rc, src) && MadeRoom(v.content, w.content, at, length, i, CopyItem(src))
  {
    hide CopyItem, ShiftedUp, CopyOwners;
    ShiftedUpIs(v, at + length, length - i);
  }

  lemma MadeRoomRead(c: Content, w: Content, at: Addr, length: nat, i: nat, item: Item)
    requires AllUsed(c, at, at + length) && i <= length && MadeRoom(c, w, at, length, i, item)
    ensures AllUsed(w, at, at + length + 1)
    ensures Read(w, at, length + 1) == Read(c, at, length)[..i] + [item] + Read(c, at, length)[i..]
  {
    assert AllUsed(w, at, at + length + 1);
    var r, s := Read(c, at, length), Read(w, at, length + 1);
    var t := r[..i] + [item] + r[i..];
    forall k | 0 <= k < length + 1 ensures s[k] == t[k] {
      assert s[k] == w[at + k];
      if k < i { assert t[k] == r[k]; } else if k > i { assert t[k] == r[k - 1] == c[at + (k - 1)]; }
    }
  }

  lemma Inserted(v: View, at: Addr, length: nat, max: nat, i: nat, src: Source)
    requires Laid(v.content, at, length, max) && i <= length < max
    ensures var w := Copied(ShiftedUp(v, at + length, length - i), at + i, src);
      && w.rc == CopyOwners(v.rc, src) && Laid(w.content, at, length + 1, max)
      && Read(w.content, at, length + 1)
         == Read(v.content, at, length)[..i] + [CopyItem(src)] + Read(v.content, at, length)[i..]
      && Outside(w.content, at, max) == Outside(v.content, at, max)
  {
    hide Copied, ShiftedUp, CopyItem, Read;
    InsertedCells(v, at, length, i, src);
    var w := Copied(ShiftedUp(v, at + length, length - i), at + i, src);
    MadeRoomRead(v.content, w.content, at, length, i, CopyItem(src));
  }

  lemma NoShift(v: View, top: Addr)
    ensures ShiftedUp(v, top, 0) == v
  {
  }

  lemma NothingCleared(v: View, at: Addr)
    ensures Cleared(v, at, 0) == v
  {
  }
}
