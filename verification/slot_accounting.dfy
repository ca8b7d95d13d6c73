/** Reference counts and slots: a count is the number of slots that own the object, and of owners
    elsewhere; and no weak reference is to an object that is dead. Whatever is done to slots keeps
    that, and leaves the owners elsewhere as they are. */
module SlotAccounting {
  import opened Values
  import opened WeakReferences
  import opened SlotBlocks

  function Rc(v: View, o: Obj): nat {
    if o in v.rc then v.rc[o] else 0
  }

  function Owners(content: map<Addr, Item>, o: Obj): set<Addr> {
    set a | a in content && content[a] == IStrong(o)
  }

  function Owns(i: Item, o: Obj): nat {
    if i == IStrong(o) then 1 else 0
  }

  /** The owners of `o` that are no slots: registers of the VM, native code and so on. */
  function OtherOwners(v: View, o: Obj): int {
    Rc(v, o) - |Owners(v.content, o)|
  }

  /** No count is too low, and no weak reference is to an object that is dead. */
  ghost predicate Steady(v: View) {
    && (forall o: Obj :: OtherOwners(v, o) >= 0)
    && (forall a :: a in v.content && v.content[a].IWeak? ==> Rc(v, v.content[a].o) > 0)
  }

  /** What was done to the slots leaves all references accounted for. */
  ghost predicate Keeps(v: View, w: View) {
    Steady(v) ==> Steady(w) && forall o: Obj :: OtherOwners(w, o) == OtherOwners(v, o)
  }

  /** Only references to objects that are alive are copied. */
  predicate Copyable(v: View, src: Source) {
    src.FromPlain? || Rc(v, src.o) > 0
  }

  lemma KeepsSelf(v: View)
    ensures Keeps(v, v)
  {
  }

  lemma KeepsOn(u: View, v: View, w: View)
    requires Keeps(u, v) && Keeps(v, w)
    ensures Keeps(u, w)
  {
  }

  // ---------------------------------------------------------------------------------------
  // One slot
  // ---------------------------------------------------------------------------------------

  lemma OwnersPut(c: map<Addr, Item>, a: Addr, i: Item, o: Obj)
    requires a !in c
    ensures |Owners(c[a := i], o)| == |Owners(c, o)| + Owns(i, o)
  {
    assert Owners(c[a := i], o) == if i == IStrong(o) then Owners(c, o) + {a} else Owners(c, o);
  }

  lemma OwnersDrop(c: map<Addr, Item>, a: Addr, o: Obj)
    requires a in c
    ensures |Owners(c - {a}, o)| + Owns(c[a], o) == |Owners(c, o)|
  {
    assert Owners(c - {a}, o) == if c[a] == IStrong(o) then Owners(c, o) - {a} else Owners(c, o);
  }

  /** A slot gets a value, and the count of its object goes up if it is an owner. */
  lemma PutKeeps(v: View, w: View, a: Addr, i: Item)
    requires a !in v.content && w.content == v.content[a := i] && (i.IWeak? ==> Rc(v, i.o) > 0)
    requires forall o: Obj :: Rc(w, o) == Rc(v, o) + Owns(i, o)
    ensures Keeps(v, w)
  {
    hide Rc, Owners;
    forall o: Obj ensures OtherOwners(w, o) == OtherOwners(v, o) { OwnersPut(v.content, a, i, o); }
  }

  /** A slot is given up, and the count of its object goes down if it was an owner. If that was the
      last one then nothing refers to the object weakly any more. */
  lemma DropKeeps(v: View, w: View, a: Addr)
    requires a in v.content && w.content.Keys == v.content.Keys - {a}
    requires forall o: Obj :: Rc(w, o) == Rc(v, o) - Owns(v.content[a], o)
    requires forall b :: b in w.content ==>
      w.content[b] == if v.content[b].IWeak? && Rc(w, v.content[b].o) == 0 && Rc(v, v.content[b].o) > 0 then INil
                      else v.content[b]
    ensures Keeps(v, w)
  {
    hide Rc;
    forall o: Obj ensures OtherOwners(w, o) == OtherOwners(v, o) {
      OwnersDrop(v.content, a, o);
      assert Owners(w.content, o) == Owners(v.content - {a}, o);
    }
  }

  /** A slot after it has been disowned and given up. */
  function Gone(v: View, a: Addr): View {
    Dropped(Disowned(v, a), a, a + 1)
  }

  /** An object that loses its last owner takes the weak references to it along, and nothing else. As
      long as it has another owner only its count changes. */
  lemma DisownedMeans(v: View, a: Addr)
    requires a in v.content
    ensures var w := Disowned(v, a);
      && w.content.Keys == v.content.Keys
      && (v.content[a].IStrong? && Rc(v, v.content[a].o) > 0 ==> var o := v.content[a].o;
            && (forall p: Obj :: Rc(w, p) == if p == o then Rc(v, o) - 1 else Rc(v, p))
            && (Rc(v, o) > 1 ==> w.content == v.content)
            && (Rc(v, o) == 1 ==> forall b :: b in v.content ==>
                  w.content[b] == if v.content[b] == IWeak(o) then INil else v.content[b]))
      && (!v.content[a].IStrong? ==>
            w.rc == v.rc && forall b :: b in v.content && b != a ==> w.content[b] == v.content[b])
      && (v.content[a].IWeak? ==> w.content[a] == INil)
  {
  }

  lemma OwnerCounted(v: View, a: Addr)
    requires Steady(v) && a in v.content && v.content[a].IStrong?
    ensures Rc(v, v.content[a].o) > 0
  {
    var o := v.content[a].o;
    assert OtherOwners(v, o) >= 0 && a in Owners(v.content, o);
  }

  lemma GoneKeeps(v: View, a: Addr)
    requires a in v.content
    ensures Keeps(v, Gone(v, a))
  {
    hide Disowned, OtherOwners, Keeps;
    DisownedMeans(v, a);
    if Steady(v) {
      if v.content[a].IStrong? { OwnerCounted(v, a); }
      DropKeeps(v, Gone(v, a), a);
    } else {
      NotSteady(v, Gone(v, a));
    }
  }

  lemma NotSteady(v: View, w: View)
    requires !Steady(v)
    ensures Keeps(v, w)
  {
  }

  lemma CopiedKeeps(v: View, a: Addr, src: Source)
    requires a !in v.content && Copyable(v, src)
    ensures Keeps(v, Copied(v, a, src))
  {
    PutKeeps(v, Copied(v, a, src), a, CopyItem(src));
  }

  /** A copy after other changes that have kept all references accounted for. */
  lemma CopyKeeps(u: View, v: View, a: Addr, src: Source)
    requires Keeps(u, v) && a !in v.content
    ensures Copyable(v, src) ==> Keeps(u, Copied(v, a, src))
    ensures u.rc == v.rc ==> (Copyable(u, src) <==> Copyable(v, src))
  {
    hide Keeps, Copied;
    if Copyable(v, src) {
      CopiedKeeps(v, a, src);
      KeepsOn(u, v, Copied(v, a, src));
    }
  }

  /** What is in a slot can be copied. */
  lemma SlotCopyable(v: View, from: Addr, src: Source)
    requires Steady(v) && from in v.content && !src.FromUnwired? && CopyItem(src) == AsCopied(v.content[from])
    ensures Copyable(v, src)
  {
    if v.content[from].IStrong? { OwnerCounted(v, from); }
  }

  lemma StoredCopyable(slots: map<Addr, Slot>, vecs: map<Obj, Vector>, used: set<Addr>, rc: map<Obj, nat>, a: Addr)
    requires Exact(slots, vecs, used) && a in used
    ensures a in slots
    ensures var v := View(Contents(slots, used), rc); Steady(v) ==> Copyable(v, SourceOf(slots[a]))
  {
    hide OtherOwners, Copyable;
    ContentAt(slots, vecs, used, a);
    var v := View(Contents(slots, used), rc);
    if Steady(v) { SlotCopyable(v, a, SourceOf(slots[a])); }
  }

  lemma CopyOfSlotKeeps(u: View, v: View, a: Addr, from: Addr, src: Source)
    requires Keeps(u, v) && a !in v.content && from in v.content
    requires !src.FromUnwired? && CopyItem(src) == AsCopied(v.content[from])
    ensures Keeps(u, Copied(v, a, src))
  {
    hide Copied, AsCopied, CopyItem, OtherOwners;
    if Steady(u) {
      SlotCopyable(v, from, src);
      CopyKeeps(u, v, a, src);
    }
  }

  lemma ClonedKeeps(v: View, to: Addr, from: Addr)
    requires from in v.content && to !in v.content
    ensures Keeps(v, Cloned(v, to, from))
  {
    hide Keeps, OtherOwners;
    if Steady(v) {
      PutKeeps(v, Cloned(v, to, from), to, v.content[from]);
    } else {
      NotSteady(v, Cloned(v, to, from));
    }
  }

  lemma MovedKeeps(v: View, to: Addr, from: Addr)
    requires from in v.content && to !in v.content
    ensures Keeps(v, Moved(v, to, from))
  {
    var w := Moved(v, to, from);
    forall o: Obj ensures OtherOwners(w, o) == OtherOwners(v, o) {
      OwnersPut(v.content, to, v.content[from], o);
      OwnersDrop(v.content[to := v.content[from]], from, o);
    }
  }

  lemma NilKeeps(v: View, a: Addr)
    requires a !in v.content
    ensures Keeps(v, v.(content := v.content[a := INil]))
  {
    PutKeeps(v, v.(content := v.content[a := INil]), a, INil);
  }

  // ---------------------------------------------------------------------------------------
  // Several slots
  // ---------------------------------------------------------------------------------------

  lemma {:induction false} MovedRangeKeeps(v: View, to: Addr, from: Addr, n: nat, k: nat)
    requires MovableRange(v.content, to, from, n) && k <= n
    ensures Keeps(v, MovedRange(v, to, from, k))
  {
    hide Keeps, Moved, MovableRange;
    KeepsSelf(v);
    if k > 0 {
      MovedRangeKeeps(v, to, from, n, k - 1);
      MovedRangeIs(v, to, from, n, k - 1);
      MovedKeeps(MovedRange(v, to, from, k - 1), to + k - 1, from + k - 1);
      KeepsOn(v, MovedRange(v, to, from, k - 1), MovedRange(v, to, from, k));
    }
  }

  lemma {:induction false} ClonedRangeKeeps(v: View, to: Addr, from: Addr, n: nat)
    requires AllUsed(v.content, from, from + n) && AllFree(v.content, to, to + n)
    ensures Keeps(v, ClonedRange(v, to, from, n))
  {
    hide Keeps, Cloned;
    KeepsSelf(v);
    if n > 0 {
      ClonedRangeKeeps(v, to, from, n - 1);
      ClonedRangeIs(v, to, from, n - 1);
      ClonedKeeps(ClonedRange(v, to, from, n - 1), to + n - 1, from + n - 1);
      KeepsOn(v, ClonedRange(v, to, from, n - 1), ClonedRange(v, to, from, n));
    }
  }

  lemma DisownedApart(v: View, a: Addr, b: Addr)
    requires a != b
    ensures Disowned(Dropped(v, b, b + 1), a) == Dropped(Disowned(v, a), b, b + 1)
    ensures a in Dropped(v, b, b + 1).content <==> a in v.content
  {
  }

  lemma {:induction false} DisownedRangeApart(v: View, lo: Addr, hi: Addr, b: Addr)
    requires b < lo
    ensures DisownedRange(Dropped(v, b, b + 1), lo, hi) == Dropped(DisownedRange(v, lo, hi), b, b + 1)
    decreases hi - lo
  {
    hide Disowned, Dropped;
    DisownedApart(v, lo, b);
    if lo < hi && lo in v.content {
      DisownedRangeApart(Disowned(v, lo), lo + 1, hi, b);
    }
  }

  lemma DroppedTwice(v: View, lo: Addr, hi: Addr)
    requires lo < hi
    ensures Dropped(Dropped(v, lo, lo + 1), lo + 1, hi) == Dropped(v, lo, hi)
    ensures Dropped(v, hi, hi) == v
  {
  }

  /** Disowning one slot after the other. */
  lemma {:induction false} DisownedRangeKeeps(v: View, lo: Addr, hi: Addr)
    requires AllUsed(v.content, lo, hi)
    ensures Keeps(v, Dropped(DisownedRange(v, lo, hi), lo, hi))
    decreases hi - lo
  {
    hide Keeps, Disowned, Dropped;
    if lo < hi {
      GoneKeeps(v, lo);
      StillUsed(v, lo, hi);
      DisownedRangeKeeps(Gone(v, lo), lo + 1, hi);
      DisownedRangeApart(Disowned(v, lo), lo + 1, hi, lo);
      DroppedTwice(DisownedRange(Disowned(v, lo), lo + 1, hi), lo, hi);
      KeepsOn(v, Gone(v, lo), Dropped(DisownedRange(v, lo, hi), lo, hi));
    } else {
      NothingDropped(v, lo, hi);
      KeepsSelf(v);
    }
  }

  lemma StillUsed(v: View, lo: Addr, hi: Addr)
    requires AllUsed(v.content, lo, hi)
    ensures AllUsed(Gone(v, lo).content, lo + 1, hi)
  {
    hide Disowned;
  }

  lemma NothingDropped(v: View, lo: Addr, hi: Addr)
    requires lo >= hi
    ensures Dropped(v, lo, hi) == v
  {
  }
}
