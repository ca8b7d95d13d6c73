/** Weak references (e_object.h): an object knows the slots that refer to it weakly, and each of
    these slots knows its place in the object's vector. Slots are identified by their address. */
module WeakReferences {
  import opened Values
  import opened Resize

  const WR_MINSIZE: nat := 4

  type Addr = nat

  /** The contents of a slot. `Plain` stands for all values that refer to no object. */
  datatype Slot = Blank | Plain(p: int) | Strong(o: Obj) | Weak(o: Obj, index: int)

  /** `EEL_weakrefs`: `refs` has the part of the vector that is in use. */
  datatype Vector = Vector(size: nat, refs: seq<Addr>)

  // ---------------------------------------------------------------------------------------
  // What the slots mean
  // ---------------------------------------------------------------------------------------

  /** The contents of a slot, without the place in the vector. */
  datatype Item = INil | IPlain(p: int) | IStrong(o: Obj) | IWeak(o: Obj)

  function ItemOf(s: Slot): Item {
    match s
    case Blank => INil
    case Plain(p) => IPlain(p)
    case Strong(o) => IStrong(o)
    case Weak(o, _) => IWeak(o)
  }

  /** All slots that are in use, and the reference counts. */
  datatype View = View(content: map<Addr, Item>, rc: map<Obj, nat>)

  /** `eel_kill_weakrefs`: what referred to `o` weakly is nil. */
  function Killed(content: map<Addr, Item>, o: Obj): (r: map<Addr, Item>)
    ensures r.Keys == content.Keys
  {
    map a | a in content :: if content[a] == IWeak(o) then INil else content[a]
  }

  /** `eel_v_disown_nz`. Disowning an object that is dead is undefined in the original; here it
      does nothing. What a dead object owned is not part of this model. */
  function Disowned(v: View, a: Addr): (r: View)
    ensures r.content.Keys == v.content.Keys
  {
    if a !in v.content then v
    else match v.content[a]
    case IStrong(o) =>
      if o !in v.rc || v.rc[o] == 0 then v
      else if v.rc[o] > 1 then v.(rc := v.rc[o := v.rc[o] - 1])
      else View(Killed(v.content, o), v.rc[o := 0])
    case IWeak(o) => v.(content := v.content[a := INil])
    case _ => v
  }

  /** A value to be copied: weak references are told apart by whether they are wired yet. */
  datatype Source = FromPlain(i: Item) | FromStrong(o: Obj) | FromWired(o: Obj) | FromUnwired(o: Obj)

  function MoreOwners(rc: map<Obj, nat>, o: Obj): map<Obj, nat> {
    rc[o := if o in rc then rc[o] + 1 else 1]
  }

  /** What `eel_v_copy` leaves in the new slot. */
  function CopyItem(src: Source): Item {
    match src
    case FromPlain(i) => if i.IPlain? then i else INil
    case FromStrong(o) => IStrong(o)
    case FromWired(o) => IStrong(o)
    case FromUnwired(o) => IWeak(o)
  }

  /** What a copy of an item in a slot is: `eel_v_copy` makes an owner out of a wired weak
      reference. */
  function AsCopied(i: Item): Item {
    if i.IWeak? then IStrong(i.o) else i
  }

  /** The value in a slot, as something to copy. */
  function SourceOf(s: Slot): (src: Source)
    ensures !src.FromUnwired? && CopyItem(src) == AsCopied(ItemOf(s))
  {
    match s
    case Blank => FromPlain(INil)
    case Plain(p) => FromPlain(IPlain(p))
    case Strong(o) => FromStrong(o)
    case Weak(o, _) => FromWired(o)
  }

  function CopyOwners(rc: map<Obj, nat>, src: Source): map<Obj, nat> {
    if src.FromStrong? || src.FromWired? then MoreOwners(rc, src.o) else rc
  }

  function Copied(v: View, a: Addr, src: Source): View {
    View(v.content[a := CopyItem(src)], CopyOwners(v.rc, src))
  }

  /** `eel_v_clone`: weak references stay weak. */
  function Cloned(v: View, to: Addr, from: Addr): View
    requires from in v.content
  {
    View(v.content[to := v.content[from]],
         if v.content[from].IStrong? then MoreOwners(v.rc, v.content[from].o) else v.rc)
  }

  /** Slots that hold nothing any more. */
  function Dropped(v: View, lo: Addr, hi: Addr): View {
    v.(content := map a | a in v.content && !(lo <= a < hi) :: v.content[a])
  }

  /** `eel_v_move`. */
  function Moved(v: View, to: Addr, from: Addr): View
    requires from in v.content
  {
    v.(content := v.content[to := v.content[from]] - {from})
  }

  // ---------------------------------------------------------------------------------------
  // The correspondence
  // ---------------------------------------------------------------------------------------

  /** A slot that is in use is wired to an object exactly if it is in the object's vector, at the
      place that it knows. */
  ghost predicate Exact(slots: map<Addr, Slot>, vecs: map<Obj, Vector>, used: set<Addr>) {
    && (forall a :: a in used ==> a in slots)
    && (forall a :: a in used && slots[a].Weak? ==> WiredAt(slots[a].o, slots[a].index, a, vecs))
    && (forall o, i :: o in vecs && 0 <= i < |vecs[o].refs| ==>
          vecs[o].refs[i] in used && slots[vecs[o].refs[i]] == Weak(o, i))
    && (forall o :: o in vecs ==> |vecs[o].refs| <= vecs[o].size)
  }

  ghost predicate WiredAt(o: Obj, i: int, a: Addr, vecs: map<Obj, Vector>) {
    o in vecs && 0 <= i < |vecs[o].refs| && vecs[o].refs[i] == a
  }

  lemma AttachExact(slots: map<Addr, Slot>, vecs: map<Obj, Vector>, used: set<Addr>, a: Addr, o: Obj, size: nat)
    requires Exact(slots, vecs, used) && a !in used
    requires var refs := if o in vecs then vecs[o].refs else []; size >= |refs| + 1
    ensures var refs := if o in vecs then vecs[o].refs else [];
      Exact(slots[a := Weak(o, |refs|)], vecs[o := Vector(size, refs + [a])], used + {a})
  {
    var refs := if o in vecs then vecs[o].refs else [];
    var slots', vecs', used' := slots[a := Weak(o, |refs|)], vecs[o := Vector(size, refs + [a])], used + {a};
    forall b | b in used' && slots'[b].Weak? ensures WiredAt(slots'[b].o, slots'[b].index, b, vecs') {
      if b != a { assert WiredAt(slots[b].o, slots[b].index, b, vecs); }
    }
  }

  /** The last entry of the vector takes the place of the one that is detached. */
  lemma DetachExact(slots: map<Addr, Slot>, vecs: map<Obj, Vector>, used: set<Addr>, a: Addr, size: nat)
    requires Exact(slots, vecs, used) && a in used && slots[a].Weak?
    requires size >= |vecs[slots[a].o].refs| - 1
    ensures var o, i := slots[a].o, slots[a].index;
      && 0 <= i < |vecs[o].refs|
      && var n := |vecs[o].refs| - 1;
      && var last := vecs[o].refs[n];
      && last in used && slots[last] == Weak(o, n)
      && var refs := vecs[o].refs[i := last][..n];
      Exact(slots[last := Weak(o, i)][a := Blank], vecs[o := Vector(size, refs)], used)
    ensures var last := vecs[slots[a].o].refs[|vecs[slots[a].o].refs| - 1];
      Contents(slots[last := Weak(slots[a].o, slots[a].index)][a := Blank], used) == Contents(slots, used)[a := INil]
  {
    var o, i := slots[a].o, slots[a].index;
    assert WiredAt(o, i, a, vecs);
    var n := |vecs[o].refs| - 1;
    var last := vecs[o].refs[n];
    var refs := vecs[o].refs[i := last][..n];
    var slots', vecs' := slots[last := Weak(o, i)][a := Blank], vecs[o := Vector(size, refs)];
    forall b | b in used && slots'[b].Weak? ensures WiredAt(slots'[b].o, slots'[b].index, b, vecs') {
      assert WiredAt(slots[b].o, slots[b].index, b, vecs);
    }
    forall p, k | p in vecs' && 0 <= k < |vecs'[p].refs|
      ensures vecs'[p].refs[k] in used && slots'[vecs'[p].refs[k]] == Weak(p, k)
    {
      assert slots[vecs[p].refs[k]] == Weak(p, k);
      assert slots[vecs[o].refs[n]] == Weak(o, n);
    }
  }

  /** A vector without entries may as well not be there. */
  lemma EmptyVectorExact(slots: map<Addr, Slot>, vecs: map<Obj, Vector>, used: set<Addr>, o: Obj)
    requires Exact(slots, vecs, used) && o in vecs && vecs[o].refs == []
    ensures Exact(slots, vecs - {o}, used)
  {
    forall b | b in used && slots[b].Weak? ensures WiredAt(slots[b].o, slots[b].index, b, vecs - {o}) {
      assert WiredAt(slots[b].o, slots[b].index, b, vecs);
    }
  }

  lemma RelocateExact(slots: map<Addr, Slot>, vecs: map<Obj, Vector>, used: set<Addr>, to: Addr, from: Addr)
    requires Exact(slots, vecs, used) && from in used && to !in used
    ensures var s := slots[from];
      && (s.Weak? ==> s.o in vecs && 0 <= s.index < |vecs[s.o].refs|)
      && var vecs' := if s.Weak? then vecs[s.o := vecs[s.o].(refs := vecs[s.o].refs[s.index := to])] else vecs;
      Exact(slots[to := s], vecs', used - {from} + {to})
  {
    var s := slots[from];
    if s.Weak? { assert WiredAt(s.o, s.index, from, vecs); }
    var vecs' := if s.Weak? then vecs[s.o := vecs[s.o].(refs := vecs[s.o].refs[s.index := to])] else vecs;
    var slots', used' := slots[to := s], used - {from} + {to};
    forall b | b in used' && slots'[b].Weak? ensures WiredAt(slots'[b].o, slots'[b].index, b, vecs') {
      if b != to { assert WiredAt(slots[b].o, slots[b].index, b, vecs); }
    }
    forall p, k | p in vecs' && 0 <= k < |vecs'[p].refs|
      ensures vecs'[p].refs[k] in used' && slots'[vecs'[p].refs[k]] == Weak(p, k)
    {
      assert slots[vecs[p].refs[k]] == Weak(p, k);
    }
  }

  /** `slots` after the slots in the vector of `o` have been made nil. */
  ghost predicate Blanked(slots: map<Addr, Slot>, slots': map<Addr, Slot>, refs: seq<Addr>, n: nat)
    requires n <= |refs|
  {
    && slots'.Keys == slots.Keys
    && forall a :: a in slots ==> slots'[a] == if a in refs[..n] then Blank else slots[a]
  }

  lemma KillExact(slots: map<Addr, Slot>, vecs: map<Obj, Vector>, used: set<Addr>, o: Obj, slots': map<Addr, Slot>)
    requires Exact(slots, vecs, used) && o in vecs && Blanked(slots, slots', vecs[o].refs, |vecs[o].refs|)
    ensures Exact(slots', vecs - {o}, used)
    ensures Contents(slots', used) == Killed(Contents(slots, used), o)
  {
    var refs := vecs[o].refs;
    assert refs[..|refs|] == refs;
    forall a | a in used ensures a in refs <==> slots[a].Weak? && slots[a].o == o {
      if slots[a].Weak? && slots[a].o == o { assert WiredAt(o, slots[a].index, a, vecs); }
      if a in refs {
        var i :| 0 <= i < |refs| && refs[i] == a;
        assert slots[vecs[o].refs[i]] == Weak(o, i);
      }
    }
    forall b | b in used && slots'[b].Weak? ensures WiredAt(slots'[b].o, slots'[b].index, b, vecs - {o}) {
      assert WiredAt(slots[b].o, slots[b].index, b, vecs);
    }
    forall p, k | p in vecs && p != o && 0 <= k < |vecs[p].refs|
      ensures vecs[p].refs[k] in used && slots'[vecs[p].refs[k]] == Weak(p, k)
    {
      assert slots[vecs[p].refs[k]] == Weak(p, k);
    }
  }

  /** No slot refers weakly to an object without a vector. */
  lemma NoneToKill(slots: map<Addr, Slot>, vecs: map<Obj, Vector>, used: set<Addr>, o: Obj)
    requires Exact(slots, vecs, used) && o !in vecs
    ensures Killed(Contents(slots, used), o) == Contents(slots, used)
  {
    forall a | a in used ensures ItemOf(slots[a]) != IWeak(o) {
      if slots[a].Weak? { assert WiredAt(slots[a].o, slots[a].index, a, vecs); }
    }
  }

  function Contents(slots: map<Addr, Slot>, used: set<Addr>): (r: map<Addr, Item>)
    requires forall a :: a in used ==> a in slots
    ensures r.Keys == used
  {
    map a | a in used :: ItemOf(slots[a])
  }

  // ---------------------------------------------------------------------------------------
  // The slots
  // ---------------------------------------------------------------------------------------

  class Memory {
    var slots: map<Addr, Slot>
    var vecs: map<Obj, Vector>
    var rc: map<Obj, nat>
    ghost var used: set<Addr>

    ghost predicate Valid()
      reads this
    {
      Exact(slots, vecs, used)
    }

    ghost function V(): (v: View)
      reads this
      requires Valid()
      ensures v.content.Keys == used
    {
      View(Contents(slots, used), rc)
    }

    constructor ()
      ensures Valid() && V() == View(map[], map[])
    {
      slots, vecs, rc, used := map[], map[], map[], {};
    }

    /** `eel_weakref_attach`: slot `a` gets a weak reference to `o`. */
    method Attach(a: Addr, o: Obj)
      requires Valid() && a !in used
      modifies `slots, `vecs, `used
      ensures Valid() && V() == old(V()).(content := old(V()).content[a := IWeak(o)])
    {
      var nrefs, size := 0, 0;
      var refs: seq<Addr> := [];
      if o in vecs {
        refs := vecs[o].refs;
        nrefs := |refs|;
        size := vecs[o].size;
      }
      var newsize := size;
      if size < nrefs + 1 {
        newsize := Calculate(WR_MINSIZE, size, nrefs + 1);
      }
      AttachExact(slots, vecs, used, a, o, newsize);
      vecs := vecs[o := Vector(newsize, refs + [a])];
      slots := slots[a := Weak(o, nrefs)];
      used := used + {a};
    }

    /** `eel__weakref_detach`: the vector shrinks when it is more than twice as large as it needs
        to be, and a vector of the smallest size goes away with its last entry. */
    method Detach(a: Addr)
      requires Valid() && a in used && slots[a].Weak?
      modifies `slots, `vecs
      ensures Valid() && V() == old(V()).(content := old(V()).content[a := INil])
    {
      assert WiredAt(slots[a].o, slots[a].index, a, vecs);
      hide Exact, Contents;
      var o, index := slots[a].o, slots[a].index;
      var wr := vecs[o];
      var nrefs, size := |wr.refs|, wr.size;
      var newsize := if nrefs - 1 < size / 2 && size > WR_MINSIZE then size / 2 else size;
      DetachExact(slots, vecs, used, a, newsize);
      var refs := wr.refs;
      refs := refs[index := refs[nrefs - 1]];
      slots := slots[refs[index] := Weak(o, index)];
      nrefs := nrefs - 1;
      refs := refs[..nrefs];
      vecs := vecs[o := Vector(newsize, refs)];
      slots := slots[a := Blank];
      if !(nrefs < size / 2 && size > WR_MINSIZE) && nrefs == 0 {
        EmptyVectorExact(slots, vecs, used, o);
        vecs := vecs - {o};
      }
    }

    /** `eel_kill_weakrefs`. */
    method Kill(o: Obj)
      requires Valid()
      modifies `slots, `vecs
      ensures Valid() && V() == old(V()).(content := Killed(old(V()).content, o)) && o !in vecs
    {
      if o !in vecs {
        NoneToKill(slots, vecs, used, o);
        return;
      }
      var refs := vecs[o].refs;
      ghost var slots0 := slots;
      for i := 0 to |refs|
        invariant Blanked(slots0, slots, refs, i) && vecs == old(vecs)
      {
        assert refs[i] in used;
        assert refs[..i + 1] == refs[..i] + [refs[i]];
        slots := slots[refs[i] := Blank];
      }
      KillExact(slots0, vecs, used, o, slots);
      vecs := vecs - {o};
    }

    /** `eel_v_disown_nz`. An object that loses its last owner is destroyed at once. */
    method Disown(a: Addr)
      requires Valid() && a in used
      modifies `slots, `vecs, `rc
      ensures Valid() && V() == Disowned(old(V()), a)
    {
      match slots[a] {
        case Strong(o) =>
          if o in rc && rc[o] > 0 {
            rc := rc[o := rc[o] - 1];
            if rc[o] == 0 {
              Kill(o);
            }
          }
        case Weak(_, _) => Detach(a);
        case _ =>
      }
    }

    method Own(o: Obj)
      modifies `rc
      ensures rc == MoreOwners(old(rc), o)
    {
      rc := rc[o := if o in rc then rc[o] + 1 else 1];
    }

    method Put(a: Addr, s: Slot)
      requires Valid() && a !in used && !s.Weak?
      modifies `slots, `used
      ensures Valid() && V() == old(V()).(content := old(V()).content[a := ItemOf(s)])
    {
      PutExact(slots, vecs, used, a, s);
      slots := slots[a := s];
      used := used + {a};
    }

    /** `eel_v_copy`. */
    method Copy(a: Addr, src: Source)
      requires Valid() && a !in used
      modifies `slots, `vecs, `rc, `used
      ensures Valid() && V() == Copied(old(V()), a, src)
    {
      match src {
        case FromPlain(i) => Put(a, if i.IPlain? then Plain(i.p) else Blank);
        case FromStrong(o) => Put(a, Strong(o)); Own(o);
        case FromWired(o) => Put(a, Strong(o)); Own(o);
        case FromUnwired(o) => Attach(a, o);
      }
    }

    /** `eel_v_clone`. */
    method Clone(to: Addr, from: Addr)
      requires Valid() && from in used && to !in used
      modifies `slots, `vecs, `rc, `used
      ensures Valid() && V() == Cloned(old(V()), to, from)
    {
      match slots[from] {
        case Strong(o) => Put(to, Strong(o)); Own(o);
        case Weak(o, _) => Attach(to, o);
        case _ => Put(to, slots[from]);
      }
    }

    /** Slots that have been disowned hold nothing any more, whatever is left in them. */
    ghost method Forget(lo: Addr, hi: Addr)
      requires Valid() && forall a :: lo <= a < hi && a in used ==> !slots[a].Weak?
      modifies `used
      ensures Valid()
      ensures V() == Dropped(old(V()), lo, hi)
    {
      ForgetExact(slots, vecs, used, lo, hi);
      used := set a | a in used && !(lo <= a < hi);
    }

    /** A slot that is disowned in order to be overwritten. */
    method DisownForget(a: Addr)
      requires Valid() && a in used
      modifies this
      ensures Valid() && V() == Dropped(Disowned(old(V()), a), a, a + 1)
    {
      hide Exact;
      ghost var v := V();
      Disown(a);
      DisownedNotWeak(v, a);
      ContentAt(slots, vecs, used, a);
      Forget(a, a + 1);
    }

    /** `eel_v_move`, and moving a slot along with the block that it is in. */
    method Move(to: Addr, from: Addr)
      requires Valid() && from in used && to !in used
      modifies `slots, `vecs, `used
      ensures Valid() && V() == Moved(old(V()), to, from)
    {
      RelocateExact(slots, vecs, used, to, from);
      slots := slots[to := slots[from]];
      var s := slots[to];
      if s.Weak? {
        vecs := vecs[s.o := vecs[s.o].(refs := vecs[s.o].refs[s.index := to])];
      }
      used := used - {from} + {to};
    }
  }

  /** A copy of a value is that value, and one more owner if it is a reference, also if the original was a
      weak one. Only a weak reference that is not wired yet is copied as a weak one. */
  lemma CopyMeans(v: View, a: Addr, s: Slot)
    ensures var w := Copied(v, a, SourceOf(s));
      && w.content.Keys == v.content.Keys + {a}
      && (forall b :: b in v.content && b != a ==> w.content[b] == v.content[b])
      && (s.Strong? || s.Weak? ==>
            w.content[a] == IStrong(s.o) && w.rc == v.rc[s.o := (if s.o in v.rc then v.rc[s.o] else 0) + 1])
      && (s.Plain? ==> w.content[a] == IPlain(s.p)) && (s.Blank? ==> w.content[a] == INil)
      && (s.Plain? || s.Blank? ==> w.rc == v.rc)
    ensures forall o: Obj :: Copied(v, a, FromUnwired(o)) == v.(content := v.content[a := IWeak(o)])
  {
  }

  lemma DisownedNotWeak(v: View, a: Addr)
    requires a in v.content
    ensures !Disowned(v, a).content[a].IWeak?
  {
  }

  lemma ContentAt(slots: map<Addr, Slot>, vecs: map<Obj, Vector>, used: set<Addr>, a: Addr)
    requires Exact(slots, vecs, used) && a in used
    ensures a in slots && Contents(slots, used)[a] == ItemOf(slots[a])
  {
  }

  lemma ForgetExact(slots: map<Addr, Slot>, vecs: map<Obj, Vector>, used: set<Addr>, lo: Addr, hi: Addr)
    requires Exact(slots, vecs, used) && forall a :: lo <= a < hi && a in used ==> !slots[a].Weak?
    ensures Exact(slots, vecs, set a | a in used && !(lo <= a < hi))
  {
    forall o, i | o in vecs && 0 <= i < |vecs[o].refs| ensures !(lo <= vecs[o].refs[i] < hi) {
      assert slots[vecs[o].refs[i]] == Weak(o, i);
    }
  }

  lemma PutExact(slots: map<Addr, Slot>, vecs: map<Obj, Vector>, used: set<Addr>, a: Addr, s: Slot)
    requires Exact(slots, vecs, used) && a !in used && !s.Weak?
    ensures Exact(slots[a := s], vecs, used + {a})
  {
    forall b | b in used + {a} && slots[a := s][b].Weak? ensures WiredAt(slots[b].o, slots[b].index, b, vecs) {}
  }
}
