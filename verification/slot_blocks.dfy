/** Blocks of slots in memory: what moving, cloning and disowning them one by one comes to. Arrays
    and tables keep their values in such blocks (e_array.c, e_table.c). */
module SlotBlocks {
  import opened Values
  import opened WeakReferences

  type Content = map<Addr, Item>

  ghost predicate AllUsed(c: Content, lo: Addr, hi: Addr) {
    forall a :: lo <= a < hi ==> a in c
  }

  ghost predicate AllFree(c: Content, lo: Addr, hi: Addr) {
    forall a :: lo <= a < hi ==> a !in c
  }

  /** The values in `n` slots from address `at` on. */
  ghost function Read(c: Content, at: Addr, n: nat): (r: seq<Item>)
    requires AllUsed(c, at, at + n)
    ensures |r| == n
  {
    seq(n, i requires 0 <= i < n => c[at + i])
  }

  /** What is in use outside a block. */
  ghost function Outside(c: Content, at: Addr, n: nat): Content {
    map a | a in c && !(at <= a < at + n) :: c[a]
  }

  /** The first `n` slots from `from` on are moved to `to`, in this order. */
  function MovedRange(v: View, to: Addr, from: Addr, n: nat): View {
    if n == 0 then v
    else
      var w := MovedRange(v, to, from, n - 1);
      if from + n - 1 in w.content then Moved(w, to + n - 1, from + n - 1) else w
  }

  /** It may be a move to another block, or down in the same one. */
  ghost predicate MovableRange(c: Content, to: Addr, from: Addr, n: nat) {
    && AllUsed(c, from, from + n)
    && (to < from || from + n <= to)
    && forall a :: to <= a < to + n && !(from <= a < from + n) ==> a !in c
  }

  /** The first `k` of `n` slots have been moved. */
  ghost predicate RangeMoved(c: Content, w: Content, to: Addr, from: Addr, n: nat, k: nat)
    requires AllUsed(c, from, from + n) && k <= n
  {
    && (forall a :: to <= a < to + k ==> a in w && w[a] == c[from + (a - to)])
    && (forall a :: from + k <= a < from + n ==> a in w && w[a] == c[a])
    && (forall a :: !(to <= a < to + k) && !(from <= a < from + n) ==>
          (a in w <==> a in c) && (a in c ==> w[a] == c[a]))
    && (forall a :: from <= a < from + k && !(to <= a < to + k) ==> a !in w)
  }

  lemma RangeMovedNext(c: Content, w: Content, to: Addr, from: Addr, n: nat, k: nat)
    requires MovableRange(c, to, from, n) && k < n && RangeMoved(c, w, to, from, n, k)
    ensures from + k in w && to + k !in w
    ensures RangeMoved(c, w[to + k := w[from + k]] - {from + k}, to, from, n, k + 1)
  {
    var r := w[to + k := w[from + k]] - {from + k};
    forall a | to <= a < to + k + 1 ensures a in r && r[a] == c[from + (a - to)] {
      if a < to + k { assert a in w && w[a] == c[from + (a - to)]; }
    }
    forall a | from <= a < from + k + 1 && !(to <= a < to + k + 1) ensures a !in r {
      if a < from + k { assert a !in w; }
    }
  }

  lemma NothingMoved(c: Content, to: Addr, from: Addr, n: nat)
    requires AllUsed(c, from, from + n)
    ensures RangeMoved(c, c, to, from, n, 0)
  {
  }

  lemma {:induction false} MovedRangeIs(v: View, to: Addr, from: Addr, n: nat, k: nat)
    requires MovableRange(v.content, to, from, n) && k <= n
    ensures MovedRange(v, to, from, k).rc == v.rc
            && RangeMoved(v.content, MovedRange(v, to, from, k).content, to, from, n, k)
    ensures k < n ==> from + k in MovedRange(v, to, from, k).content && to + k !in MovedRange(v, to, from, k).content
  {
    hide RangeMoved;
    NothingMoved(v.content, to, from, n);
    if k > 0 {
      MovedRangeIs(v, to, from, n, k - 1);
      RangeMovedNext(v.content, MovedRange(v, to, from, k - 1).content, to, from, n, k - 1);
    }
    if k < n { RangeMovedNext(v.content, MovedRange(v, to, from, k).content, to, from, n, k); }
  }

  /** All of `lo` up to `hi` is disowned, from the first to the last. */
  function DisownedRange(v: View, lo: Addr, hi: Addr): (r: View)
    ensures r.content.Keys == v.content.Keys
    decreases hi - lo
  {
    if lo >= hi || lo !in v.content then v else DisownedRange(Disowned(v, lo), lo + 1, hi)
  }

  /** The slots of the array up to its length are in use, and the rest of its block is not. */
  ghost predicate Laid(c: Content, at: Addr, length: nat, max: nat) {
    length <= max && AllUsed(c, at, at + length) && AllFree(c, at + length, at + max)
  }

  /** What `realloc` may return for `n` slots: the block where it is, if there is room, or a
      block of slots that are not in use. */
  ghost predicate CanMoveTo(c: Content, values: Addr, max: nat, at: Addr, n: nat) {
    if at == values then AllFree(c, values + max, values + n)
    else AllFree(c, at, at + n) && (at + n <= values || values + max <= at)
  }

  lemma BlockMoved(v: View, values: Addr, length: nat, max: nat, at: Addr, n: nat)
    requires Laid(v.content, values, length, max) && length <= n
    requires CanMoveTo(v.content, values, max, at, n) && at != values
    ensures MovableRange(v.content, at, values, length)
    ensures var w := MovedRange(v, at, values, length);
      && w.rc == v.rc && Laid(w.content, at, length, n) && AllFree(w.content, values, values + max)
      && Read(w.content, at, length) == Read(v.content, values, length)
      && Outside(w.content, at, n) == Outside(v.content, values, max)
  {
    MovedRangeIs(v, at, values, length, length);
  }

  ghost predicate NoneWeak(c: Content, lo: Addr, hi: Addr) {
    forall a :: lo <= a < hi && a in c ==> !c[a].IWeak?
  }

  lemma DisownedNext(v: View, a: Addr, hi: Addr)
    requires a < hi && a in v.content
    ensures DisownedRange(v, a, hi) == DisownedRange(Disowned(v, a), a + 1, hi)
  {
  }

  lemma DisownedDone(v: View, a: Addr, hi: Addr)
    requires a >= hi
    ensures DisownedRange(v, a, hi) == v
  {
  }

  /** Disowning one more slot makes none of those that were disowned before weak again. */
  lemma DisownedKeeps(v: View, lo: Addr, a: Addr)
    requires a in v.content && NoneWeak(v.content, lo, a)
    ensures NoneWeak(Disowned(v, a).content, lo, a + 1)
  {
  }

  lemma NotWeakSlots(slots: map<Addr, Slot>, vecs: map<Obj, Vector>, used: set<Addr>, lo: Addr, hi: Addr)
    requires Exact(slots, vecs, used) && NoneWeak(Contents(slots, used), lo, hi)
    ensures forall a :: lo <= a < hi && a in used ==> a in slots && !slots[a].Weak?
  {
    forall a | lo <= a < hi && a in used ensures a in slots && !slots[a].Weak? { ContentAt(slots, vecs, used, a); }
  }

  /** The gap that `n` deleted values leave has been closed. */
  ghost predicate GapClosed(c: Content, r: Content, at: Addr, length: nat, i0: nat, n: nat)
    requires i0 + n <= length
  {
    && (forall a :: at + i0 <= a < at + length - n ==> a in r && a + n in c && r[a] == c[a + n])
    && (forall a :: at + length - n <= a < at + length ==> a !in r)
    && (forall a :: a < at + i0 || a >= at + length ==> (a in r <==> a in c) && (a in c ==> r[a] == c[a]))
  }

  lemma DeletedCells(w: View, at: Addr, length: nat, i0: nat, n: nat)
    requires AllUsed(w.content, at, at + length) && i0 + n <= length
    ensures var d := Dropped(w, at + i0, at + i0 + n);
      && (n > 0 ==> MovableRange(d.content, at + i0, at + i0 + n, length - i0 - n))
      && var r := if n > 0 then MovedRange(d, at + i0, at + i0 + n, length - i0 - n) else d;
      && r.rc == w.rc && GapClosed(w.content, r.content, at, length, i0, n)
  {
    hide MovedRange, RangeMoved, GapClosed, Dropped, MovableRange;
    var d := Dropped(w, at + i0, at + i0 + n);
    if n > 0 {
      DroppedMovable(w, at, length, i0, n);
      MovedRangeIs(d, at + i0, at + i0 + n, length - i0 - n, length - i0 - n);
      GapFromMove(w, MovedRange(d, at + i0, at + i0 + n, length - i0 - n).content, at, length, i0, n);
    } else {
      NoGap(w, at, length, i0);
    }
  }

  lemma NoGap(w: View, at: Addr, length: nat, i0: nat)
    requires AllUsed(w.content, at, at + length) && i0 <= length
    ensures Dropped(w, at + i0, at + i0) == w && GapClosed(w.content, w.content, at, length, i0, 0)
  {
  }

  lemma DroppedMovable(w: View, at: Addr, length: nat, i0: nat, n: nat)
    requires AllUsed(w.content, at, at + length) && 0 < n && i0 + n <= length
    ensures var d := Dropped(w, at + i0, at + i0 + n);
      && d.rc == w.rc && MovableRange(d.content, at + i0, at + i0 + n, length - i0 - n)
      && AllUsed(d.content, at + i0 + n, at + i0 + n + (length - i0 - n))
  {
  }

  lemma GapFromMove(w: View, r: Content, at: Addr, length: nat, i0: nat, n: nat)
    requires AllUsed(w.content, at, at + length) && i0 + n <= length
    requires var d := Dropped(w, at + i0, at + i0 + n).content;
      AllUsed(d, at + i0 + n, at + i0 + n + (length - i0 - n))
      && RangeMoved(d, r, at + i0, at + i0 + n, length - i0 - n, length - i0 - n)
    ensures GapClosed(w.content, r, at, length, i0, n)
  {
    var d, to, from := Dropped(w, at + i0, at + i0 + n).content, at + i0, at + i0 + n;
    forall a | to <= a < at + length - n ensures a in r && r[a] == w.content[a + n] {
      assert r[a] == d[from + (a - to)];
    }
    forall a | at + length - n <= a < at + length ensures a !in r {
      if a < from { assert a !in d; }
    }
    forall a | a < to || a >= at + length
      ensures (a in r <==> a in w.content) && (a in w.content ==> r[a] == w.content[a]) {
      assert a in d <==> a in w.content;
    }
  }

  lemma GapClosedRead(c: Content, r: Content, at: Addr, length: nat, i0: nat, n: nat)
    requires AllUsed(c, at, at + length) && i0 + n <= length && GapClosed(c, r, at, length, i0, n)
    ensures AllUsed(r, at, at + length - n)
    ensures Read(r, at, length - n) == Read(c, at, length)[..i0] + Read(c, at, length)[i0 + n..]
  {
    assert AllUsed(r, at, at + length - n);
    var s, t := Read(c, at, length), Read(r, at, length - n);
    var u := s[..i0] + s[i0 + n..];
    forall k | 0 <= k < length - n ensures t[k] == u[k] {
      assert t[k] == r[at + k];
      if k < i0 { assert u[k] == s[k]; } else { assert u[k] == s[k + n] == c[at + (k + n)]; }
    }
  }

  lemma GapClosedLaid(c: Content, r: Content, at: Addr, length: nat, max: nat, i0: nat, n: nat)
    requires Laid(c, at, length, max) && i0 + n <= length && GapClosed(c, r, at, length, i0, n)
    ensures Laid(r, at, length - n, max) && Outside(r, at, max) == Outside(c, at, max)
  {
  }

  /** `r` is `w` with `n` values of an array deleted. */
  ghost predicate ValuesDeleted(w: View, r: View, at: Addr, length: nat, max: nat, i0: nat, n: nat)
    requires Laid(w.content, at, length, max) && i0 + n <= length
  {
    && r.rc == w.rc && Laid(r.content, at, length - n, max)
    && Read(r.content, at, length - n) == Read(w.content, at, length)[..i0] + Read(w.content, at, length)[i0 + n..]
    && Outside(r.content, at, max) == Outside(w.content, at, max)
  }

  lemma DeletedMeans(v: View, w: View, r: View, at: Addr, length: nat, max: nat, i0: nat, n: nat)
    requires Laid(w.content, at, length, max) && i0 + n <= length && ValuesDeleted(w, r, at, length, max, i0, n)
    ensures r.rc == w.rc && AllUsed(w.content, at, at + length) && Laid(r.content, at, length - n, max)
    ensures AllUsed(r.content, at, at + length - n)
    ensures Read(r.content, at, length - n) == Read(w.content, at, length)[..i0] + Read(w.content, at, length)[i0 + n..]
    ensures Outside(r.content, at, max) == Outside(w.content, at, max)
  {
  }

  /** What deleting `n` values comes to, once they are disowned. */
  lemma Deleted(w: View, at: Addr, length: nat, max: nat, i0: nat, n: nat)
    requires Laid(w.content, at, length, max) && i0 + n <= length
    ensures var d := Dropped(w, at + i0, at + i0 + n);
      && (n > 0 ==> MovableRange(d.content, at + i0, at + i0 + n, length - i0 - n))
      && ValuesDeleted(w, if n > 0 then MovedRange(d, at + i0, at + i0 + n, length - i0 - n)
         else d, at, length, max, i0, n)
  {
    hide GapClosed, MovedRange, MovableRange, Read, Outside, Dropped;
    DeletedCells(w, at, length, i0, n);
    var d := Dropped(w, at + i0, at + i0 + n);
    var r := if n > 0 then MovedRange(d, at + i0, at + i0 + n, length - i0 - n) else d;
    GapClosedRead(w.content, r.content, at, length, i0, n);
    GapClosedLaid(w.content, r.content, at, length, max, i0, n);
  }

  /** The reference counts after one more owner for each strong reference. */
  function ItemOwners(rc: map<Obj, nat>, items: seq<Item>): map<Obj, nat>
    decreases |items|
  {
    if items == [] then rc
    else
      var n := |items| - 1;
      var r := ItemOwners(rc, items[..n]);
      if items[n].IStrong? then MoreOwners(r, items[n].o) else r
  }

  /** `n` values from `from` on are cloned to `to`. */
  function ClonedRange(v: View, to: Addr, from: Addr, n: nat): View {
    if n == 0 then v
    else
      var w := ClonedRange(v, to, from, n - 1);
      if from + n - 1 in w.content then Cloned(w, to + n - 1, from + n - 1) else w
  }

  lemma {:induction false} ClonedRangeIs(v: View, to: Addr, from: Addr, n: nat)
    requires AllUsed(v.content, from, from + n) && AllFree(v.content, to, to + n)
    ensures var w := ClonedRange(v, to, from, n);
      && (forall a :: to <= a < to + n ==> a in w.content && w.content[a] == v.content[from + (a - to)])
      && (forall a :: !(to <= a < to + n) ==>
            (a in w.content <==> a in v.content) && (a in v.content ==> w.content[a] == v.content[a]))
  {
    hide MoreOwners;
    if n > 0 { ClonedRangeIs(v, to, from, n - 1); }
  }

  lemma {:induction false} ClonedRangeOwners(v: View, to: Addr, from: Addr, n: nat)
    requires AllUsed(v.content, from, from + n) && AllFree(v.content, to, to + n)
    ensures ClonedRange(v, to, from, n).rc == ItemOwners(v.rc, Read(v.content, from, n))
  {
    hide MoreOwners;
    if n > 0 {
      ClonedRangeOwners(v, to, from, n - 1);
      ClonedRangeIs(v, to, from, n - 1);
      var w := ClonedRange(v, to, from, n - 1);
      assert from + n - 1 in w.content && w.content[from + n - 1] == v.content[from + n - 1];
      var r := Read(v.content, from, n);
      assert r[..n - 1] == Read(v.content, from, n - 1) && r[n - 1] == v.content[from + n - 1];
    }
  }

  lemma ClonedRangeNext(v: View, to: Addr, from: Addr, n: nat, k: nat)
    requires AllUsed(v.content, from, from + n) && AllFree(v.content, to, to + n) && k < n
    ensures var w := ClonedRange(v, to, from, k);
      && from + k in w.content && to + k !in w.content
      && ClonedRange(v, to, from, k + 1) == Cloned(w, to + k, from + k)
  {
    ClonedRangeIs(v, to, from, k);
  }

  lemma WholeArray(v: View, values: Addr, length: nat, max: nat, at: Addr, start: nat, n: nat)
    requires Laid(v.content, values, length, max) && start + n <= length
    requires n > 0 ==> AllFree(v.content, at, at + n) && (at + n <= values || values + max <= at)
    ensures AllFree(v.content, at, at + n)
    ensures var w := ClonedRange(v, at, values + start, n);
      && Laid(w.content, values, length, max) && Read(w.content, values, length) == Read(v.content, values, length)
      && AllUsed(w.content, at, at + n) && Read(w.content, at, n) == Read(v.content, values, length)[start..start + n]
      && w.rc == ItemOwners(v.rc, Read(w.content, at, n))
      && Outside(Outside(w.content, at, n), values, max) == Outside(v.content, values, max)
  {
    hide ClonedRange, ItemOwners;
    ClonedRangeIs(v, at, values + start, n);
    ClonedRangeOwners(v, at, values + start, n);
    var w := ClonedRange(v, at, values + start, n);
    assert Read(w.content, at, n) == Read(v.content, values + start, n);
  }

  /** None of the loops has done anything yet. */
  lemma NotYet(v: View, a: Addr, b: Addr)
    ensures MovedRange(v, a, b, 0) == v && ClonedRange(v, a, b, 0) == v
  {
  }

  lemma LaidRange(c: Content, at: Addr, length: nat, max: nat)
    requires Laid(c, at, length, max)
    ensures length <= max && AllUsed(c, at, at + length) && (length < max ==> at + length !in c)
  {
  }

  lemma LaidSame(c: Content, w: Content, at: Addr, length: nat, max: nat)
    requires Laid(c, at, length, max) && w.Keys == c.Keys
    ensures Laid(w, at, length, max)
  {
  }

  /** Whether a block can be moved to depends only on what is in use elsewhere. */
  lemma CanStillMove(v: Content, w: Content, r: Content, values: Addr, max: nat, at: Addr, n: nat)
    requires CanMoveTo(v, values, max, at, n) && w.Keys == v.Keys && Outside(r, values, max) == Outside(w, values, max)
    ensures CanMoveTo(r, values, max, at, n)
  {
    forall a | a in r && !(values <= a < values + max) ensures a in v {
      assert a in Outside(r, values, max);
    }
  }

  lemma BlockKept(v: View, at: Addr, length: nat, max: nat, n: nat)
    requires Laid(v.content, at, length, max) && length <= n && CanMoveTo(v.content, at, max, at, n)
    ensures Laid(v.content, at, length, n) && Outside(v.content, at, n) == Outside(v.content, at, max)
  {
  }

  lemma MovedRangeNext(v: View, to: Addr, from: Addr, n: nat, k: nat)
    requires MovableRange(v.content, to, from, n) && k < n
    ensures var w := MovedRange(v, to, from, k);
      && from + k in w.content && to + k !in w.content
      && MovedRange(v, to, from, k + 1) == Moved(w, to + k, from + k)
  {
    MovedRangeIs(v, to, from, n, k);
  }

  // ---------------------------------------------------------------------------------------
  // The loops
  // ---------------------------------------------------------------------------------------

  /** `n` slots move from `from` to `to`, the first one first. */
  method MoveSlots(mem: Memory, to: Addr, from: Addr, n: nat)
    requires mem.Valid() && MovableRange(mem.V().content, to, from, n)
    modifies mem
    ensures mem.Valid() && mem.V() == MovedRange(old(mem.V()), to, from, n)
  {
    hide MovedRange, Exact, Contents, MovableRange;
    ghost var v := mem.V();
    NotYet(v, to, from);
    for i := 0 to n
      invariant mem.Valid() && mem.V() == MovedRange(v, to, from, i)
    {
      MovedRangeNext(v, to, from, n, i);
      mem.Move(to + i, from + i);
    }
  }

  /** All slots from `lo` up to `hi` are disowned, and then hold nothing. */
  method DisownSlots(mem: Memory, lo: Addr, hi: Addr)
    requires mem.Valid() && AllUsed(mem.V().content, lo, hi)
    modifies mem
    ensures mem.Valid() && mem.V() == Dropped(DisownedRange(old(mem.V()), lo, hi), lo, hi)
  {
    hide Exact, Contents, Disowned, DisownedRange, Dropped;
    ghost var v := mem.V();
    var a := lo;
    while a < hi
      invariant mem.Valid() && (lo <= hi ==> lo <= a <= hi) && mem.V().content.Keys == v.content.Keys
      invariant DisownedRange(mem.V(), a, hi) == DisownedRange(v, lo, hi)
      invariant NoneWeak(mem.V().content, lo, a)
    {
      DisownedNext(mem.V(), a, hi);
      DisownedKeeps(mem.V(), lo, a);
      mem.Disown(a);
      a := a + 1;
    }
    DisownedDone(mem.V(), a, hi);
    NotWeakSlots(mem.slots, mem.vecs, mem.used, lo, hi);
    mem.Forget(lo, hi);
  }

  /** `n` slots from `from` on are cloned to `to`. */
  method CloneSlots(mem: Memory, to: Addr, from: Addr, n: nat)
    requires mem.Valid() && AllUsed(mem.V().content, from, from + n) && AllFree(mem.V().content, to, to + n)
    modifies mem
    ensures mem.Valid() && mem.V() == ClonedRange(old(mem.V()), to, from, n)
  {
    hide ClonedRange, Exact, Contents;
    ghost var v := mem.V();
    NotYet(v, to, from);
    for i := 0 to n
      invariant mem.Valid() && mem.V() == ClonedRange(v, to, from, i)
    {
      ClonedRangeNext(v, to, from, n, i);
      mem.Clone(to + i, from + i);
    }
  }
}
