/** Reference counted objects (e_object.h), for containers that own their items.

    A store maps each object number to its record. `roots` in the lemmas below lists the
    references that live outside the store: variables, arguments, limbo lists and so on. */
module ObjectStore {
  import opened Values

  /** `disposals` counts how many times the object has been handed to its destructor. */
  datatype Object = Object(rc: nat, live: bool, disposals: nat, items: seq<Value>)

  type Store = seq<Object>

  /** How many items of live containers refer to `o`. */
  function ItemCount(st: Store, o: Obj): nat {
    if st == [] then 0
    else ItemCount(st[..|st| - 1], o) + Held(st[|st| - 1], o)
  }

  function Held(x: Object, o: Obj): nat {
    if x.live then Count(x.items, o) else 0
  }

  function LiveCount(st: Store): nat {
    if st == [] then 0
    else LiveCount(st[..|st| - 1]) + if st[|st| - 1].live then 1 else 0
  }

  /** Every reference count is the number of references to the object, an object is live
      exactly as long as that number is positive, and a dead one was disposed of once. */
  ghost predicate Accounted(st: Store, roots: seq<Value>) {
    forall o: Obj :: ObjectAccounted(st, roots, o)
  }

  ghost predicate ObjectAccounted(st: Store, roots: seq<Value>, o: Obj) {
    if o < |st| then
      && st[o].rc == Count(roots, o) + ItemCount(st, o)
      && (st[o].live <==> st[o].rc > 0)
      && st[o].disposals == (if st[o].live then 0 else 1)
    else Count(roots, o) == 0 && ItemCount(st, o) == 0
  }

  predicate IsLive(st: Store, v: Value) {
    v.Ref? ==> v.o < |st| && st[v.o].live
  }

  // ---------------------------------------------------------------------------------------
  // Operations
  // ---------------------------------------------------------------------------------------

  /** `eel_o_own`, applied to a value. */
  function Own(st: Store, v: Value): (r: Store)
    ensures |r| == |st|
  {
    if v.Ref? && v.o < |st| then st[v.o := st[v.o].(rc := st[v.o].rc + 1)] else st
  }

  /** `eel_v_disown_nz`, applied to each value of `pending` in turn. An object whose count
      reaches zero is destroyed on the spot, and its items are disowned before anything else.
      Disowning a dead object is undefined in the original; here it has no effect, and
      `Accounted` rules it out. */
  function Release(st: Store, pending: seq<Value>): (r: Store)
    ensures |r| == |st|
    ensures forall o :: 0 <= o < |st| ==> r[o].items == st[o].items && (r[o].live ==> st[o].live)
    decreases LiveCount(st), |pending|
  {
    if pending == [] then st
    else
      var (next, more) := Disown(st, pending[0]);
      DisownSmaller(st, pending[0]);
      Release(next, more + pending[1..])
  }

  /** Takes one reference away. The result lists the references that are to be given up in
      turn, because the object that owned them is gone. */
  function Disown(st: Store, v: Value): (r: (Store, seq<Value>))
    ensures |r.0| == |st|
    ensures forall o :: 0 <= o < |st| ==> r.0[o].items == st[o].items && (r.0[o].live ==> st[o].live)
  {
    if v.Ref? && v.o < |st| && st[v.o].live then
      var x := st[v.o];
      if x.rc > 1 then (st[v.o := x.(rc := x.rc - 1)], [])
      else (st[v.o := Killed(x)], x.items)
    else (st, [])
  }

  lemma DisownSmaller(st: Store, v: Value)
    ensures var (next, more) := Disown(st, v);
      LiveCount(next) < LiveCount(st) || (LiveCount(next) == LiveCount(st) && more == [])
  {
    if v.Ref? && v.o < |st| {
      LiveCountUpdate(st, v.o, Disown(st, v).0[v.o]);
    }
  }

  function Killed(x: Object): Object {
    x.(rc := 0, live := false, disposals := x.disposals + 1)
  }

  function OwnAll(st: Store, vs: seq<Value>): (r: Store)
    ensures |r| == |st|
    decreases |vs|
  {
    if vs == [] then st else OwnAll(Own(st, vs[0]), vs[1..])
  }

  /** A new container with the given items; each item gets one more owner, and the caller
      receives the only reference to the container. */
  function Construct(st: Store, items: seq<Value>): (r: Store)
    ensures |r| == |st| + 1
  {
    OwnAll(st, items) + [Object(1, true, 0, items)]
  }

  // ---------------------------------------------------------------------------------------
  // Bookkeeping lemmas
  // ---------------------------------------------------------------------------------------

  lemma {:induction false} LiveCountUpdate(st: Store, o: Obj, x: Object)
    requires o < |st|
    ensures LiveCount(st[o := x]) ==
            LiveCount(st) - (if st[o].live then 1 else 0) + (if x.live then 1 else 0)
  {
    if o < |st| - 1 {
      LiveCountUpdate(st[..|st| - 1], o, x);
      assert st[o := x][..|st| - 1] == st[..|st| - 1][o := x];
    } else {
      assert st[o := x][..|st| - 1] == st[..|st| - 1];
    }
  }

  lemma {:induction false} ItemCountUpdate(st: Store, i: Obj, x: Object, o: Obj)
    requires i < |st|
    ensures ItemCount(st[i := x], o) + Held(st[i], o) == ItemCount(st, o) + Held(x, o)
  {
    if i < |st| - 1 {
      ItemCountUpdate(st[..|st| - 1], i, x, o);
      assert st[i := x][..|st| - 1] == st[..|st| - 1][i := x];
    } else {
      assert st[i := x][..|st| - 1] == st[..|st| - 1];
    }
  }

  lemma ItemCountUpdateAll(st: Store, i: Obj, x: Object)
    requires i < |st|
    ensures forall o: Obj ::
              ItemCount(st[i := x], o) + Held(st[i], o) == ItemCount(st, o) + Held(x, o)
  {
    forall o: Obj { ItemCountUpdate(st, i, x, o); }
  }

  ghost predicate SameItems(a: Store, b: Store) {
    |a| == |b| && forall o :: 0 <= o < |a| ==> a[o].items == b[o].items
  }

  /** `a` has the same objects as `b`, but possibly fewer of them alive. */
  ghost predicate Within(a: Store, b: Store) {
    SameItems(a, b) && forall o :: 0 <= o < |a| ==> a[o].live ==> b[o].live
  }

  lemma {:induction false} ItemCountMonotone(a: Store, b: Store, o: Obj)
    requires Within(a, b)
    ensures ItemCount(a, o) <= ItemCount(b, o)
  {
    if a != [] {
      ItemCountMonotone(a[..|a| - 1], b[..|b| - 1], o);
    }
  }

  lemma AccountedSameRefs(st: Store, a: seq<Value>, b: seq<Value>)
    requires Accounted(st, a) && SameRefs(a, b)
    ensures Accounted(st, b)
  {
    forall o: Obj ensures ObjectAccounted(st, b, o) {
      assert ObjectAccounted(st, a, o);
    }
  }

  lemma OwnAccounted(st: Store, roots: seq<Value>, v: Value)
    requires Accounted(st, roots) && IsLive(st, v)
    ensures Accounted(Own(st, v), roots + [v])
    ensures Within(st, Own(st, v)) && Within(Own(st, v), st)
  {
    CountPush(roots, v);
    if v.Ref? {
      ItemCountUpdateAll(st, v.o, st[v.o].(rc := st[v.o].rc + 1));
    }
    forall o: Obj ensures ObjectAccounted(Own(st, v), roots + [v], o) {
      assert ObjectAccounted(st, roots, o);
    }
  }

  lemma {:induction false} OwnAllAccounted(st: Store, roots: seq<Value>, vs: seq<Value>)
    requires Accounted(st, roots) && forall i :: 0 <= i < |vs| ==> IsLive(st, vs[i])
    ensures Accounted(OwnAll(st, vs), roots + vs)
    ensures Within(st, OwnAll(st, vs)) && Within(OwnAll(st, vs), st)
    decreases |vs|
  {
    if vs == [] {
      assert roots + vs == roots;
    } else {
      OwnAccounted(st, roots, vs[0]);
      OwnAllAccounted(Own(st, vs[0]), roots + [vs[0]], vs[1..]);
      assert roots + [vs[0]] + vs[1..] == roots + vs;
    }
  }

  lemma ConstructAccounted(st: Store, roots: seq<Value>, items: seq<Value>)
    requires Accounted(st, roots) && forall i :: 0 <= i < |items| ==> IsLive(st, items[i])
    ensures Accounted(Construct(st, items), roots + [Ref(|st|)])
    ensures forall o :: 0 <= o < |st| ==>
              Construct(st, items)[o].items == st[o].items
              && Construct(st, items)[o].live == st[o].live
  {
    OwnAllAccounted(st, roots, items);
    var a := OwnAll(st, items);
    var b := Construct(st, items);
    var r := roots + [Ref(|st|)];
    assert b[..|a|] == a;
    CountPush(roots, Ref(|st|));
    CountAppendAll(roots, items);
    forall o: Obj ensures ObjectAccounted(b, r, o) {
      assert ObjectAccounted(a, roots + items, o);
      assert ItemCount(b, o) == ItemCount(a, o) + Count(items, o);
    }
  }

  // ---------------------------------------------------------------------------------------
  // Releasing references
  // ---------------------------------------------------------------------------------------

  /** The first step of a release, for the lemmas that follow it one step at a time. */
  lemma ReleaseStep(st: Store, roots: seq<Value>, pending: seq<Value>)
      returns (next: Store, rest: seq<Value>)
    requires pending != [] && Accounted(st, roots + pending)
    ensures Accounted(next, roots + rest) && Release(st, pending) == Release(next, rest)
    ensures LiveCount(next) < LiveCount(st) || (LiveCount(next) == LiveCount(st) && |rest| < |pending|)
    ensures SameItems(next, st)
    ensures forall o: Obj :: o < |st| && next[o].live != st[o].live ==>
              Ref(o) == pending[0] && !next[o].live && st[o].rc == 1
  {
    hide ItemCount, LiveCount;
    var head := pending[0];
    var more := Disown(st, head).1;
    next, rest := Disown(st, head).0, more + pending[1..];
    DisownSmaller(st, head);
    if head.Ref? {
      CountAppend(roots, pending, head.o);
      assert ObjectAccounted(st, roots + pending, head.o);
      ItemCountUpdateAll(st, head.o, next[head.o]);
    }
    CountAppendAll(roots, pending);
    CountAppendAll(roots, rest);
    CountAppendAll(more, pending[1..]);
    forall o: Obj ensures ObjectAccounted(next, roots + rest, o) {
      assert ObjectAccounted(st, roots + pending, o);
    }
  }

  /** Giving up some of the references to a store leaves exactly the remaining ones counted:
      whatever lost its last owner, directly or through a destroyed container, is dead and was
      disposed of once, and nothing else is. */
  lemma {:induction false} ReleaseAccounted(st: Store, roots: seq<Value>, pending: seq<Value>)
    requires Accounted(st, roots + pending)
    ensures Accounted(Release(st, pending), roots)
    decreases LiveCount(st), |pending|
  {
    if pending == [] {
      assert roots + pending == roots;
    } else {
      var next, rest := ReleaseStep(st, roots, pending);
      ReleaseAccounted(next, roots, rest);
    }
  }

  /** Nothing is destroyed that could have stayed: any store that accounts for the remaining
      references, with the same objects and no more of them alive than before, has only
      objects alive that are still alive after the release. */
  lemma {:induction false} ReleaseKeepsMost(
      st: Store, roots: seq<Value>, pending: seq<Value>, other: Store)
    requires Accounted(st, roots + pending)
    requires Accounted(other, roots) && Within(other, st)
    ensures Within(other, Release(st, pending))
    decreases LiveCount(st), |pending|
  {
    if pending != [] {
      var next, rest := ReleaseStep(st, roots, pending);
      forall o: Obj | o < |st| && other[o].live ensures next[o].live {
        ItemCountMonotone(other, st, o);
        CountAppend(roots, pending, o);
        assert ObjectAccounted(other, roots, o) && ObjectAccounted(st, roots + pending, o);
      }
      ReleaseKeepsMost(next, roots, rest, other);
    }
  }

  /** A store is determined by its objects, which of them are alive, and the references to it. */
  lemma AccountedUnique(a: Store, b: Store, roots: seq<Value>)
    requires Accounted(a, roots) && Accounted(b, roots)
    requires Within(a, b) && Within(b, a)
    ensures a == b
  {
    forall o: Obj | o < |a| ensures a[o] == b[o] {
      ItemCountMonotone(a, b, o);
      ItemCountMonotone(b, a, o);
      assert ObjectAccounted(a, roots, o) && ObjectAccounted(b, roots, o);
    }
  }

  /** The outcome does not depend on the order in which references are given up. */
  lemma ReleaseOrderIrrelevant(st: Store, roots: seq<Value>, p: seq<Value>, q: seq<Value>)
    requires SameRefs(p, q)
    requires Accounted(st, roots + p)
    ensures Release(st, p) == Release(st, q)
  {
    CountAppendAll(roots, p);
    CountAppendAll(roots, q);
    AccountedSameRefs(st, roots + p, roots + q);
    ReleaseAccounted(st, roots, p);
    ReleaseAccounted(st, roots, q);
    ReleaseKeepsMost(st, roots, p, Release(st, q));
    ReleaseKeepsMost(st, roots, q, Release(st, p));
    AccountedUnique(Release(st, p), Release(st, q), roots);
  }

  lemma {:induction false} ReleaseAppend(st: Store, p: seq<Value>, q: seq<Value>)
    ensures Release(st, p + q) == Release(Release(st, p), q)
    decreases LiveCount(st), |p|
  {
    hide Disown, LiveCount;
    if p == [] {
      assert p + q == q;
    } else {
      var (next, more) := Disown(st, p[0]);
      DisownSmaller(st, p[0]);
      ReleaseAppend(next, more + p[1..], q);
      assert (p + q)[1..] == p[1..] + q;
      assert more + (p[1..] + q) == (more + p[1..]) + q;
    }
  }

  /** The same objects, with other items in one of them. */
  function WithItems(st: Store, c: Obj, items: seq<Value>): (r: Store)
    requires c < |st|
    ensures |r| == |st|
  {
    st[c := st[c].(items := items)]
  }

  /** As long as a container survives, its own items play no part in a release. */
  lemma {:induction false} ReleaseWithItems(st: Store, p: seq<Value>, c: Obj, items: seq<Value>)
    requires c < |st| && Release(WithItems(st, c, items), p)[c].live
    ensures Release(st, p) == WithItems(Release(WithItems(st, c, items), p), c, st[c].items)
    decreases LiveCount(st), |p|
  {
    hide LiveCount;
    var st' := WithItems(st, c, items);
    if p != [] {
      var (next, more) := Disown(st, p[0]);
      var (next', more') := Disown(st', p[0]);
      assert Release(st', p) == Release(next', more' + p[1..]);
      assert next'[c].live;
      assert more == more' && next' == WithItems(next, c, items);
      DisownSmaller(st, p[0]);
      ReleaseWithItems(next, more + p[1..], c, items);
      assert next[c].items == st[c].items;
    }
  }

  /** A reference that is not the only one is dropped without anything being destroyed. */
  lemma DropAccounted(st: Store, roots: seq<Value>, o: Obj)
    requires Accounted(st, roots + [Ref(o)]) && Count(roots, o) > 0
    ensures o < |st| && st[o].rc > 1
    ensures Accounted(st[o := st[o].(rc := st[o].rc - 1)], roots)
  {
    CountPush(roots, Ref(o));
    assert ObjectAccounted(st, roots + [Ref(o)], o);
    var st' := st[o := st[o].(rc := st[o].rc - 1)];
    ItemCountUpdateAll(st, o, st'[o]);
    forall x: Obj ensures ObjectAccounted(st', roots, x) {
      assert ObjectAccounted(st, roots + [Ref(o)], x);
    }
  }

  /** A container trades a reference to `was` for one to `v`. */
  lemma SetItemsAccounted(
      st: Store, roots: seq<Value>, c: Obj, items: seq<Value>, v: Value, was: Value)
    requires Accounted(st, roots + [v]) && c < |st| && st[c].live
    requires forall o: Obj :: Count(items, o) + Is(was, o) == Count(st[c].items, o) + Is(v, o)
    ensures Accounted(st[c := st[c].(items := items)], roots + [was])
  {
    var st' := st[c := st[c].(items := items)];
    CountPush(roots, v);
    CountPush(roots, was);
    ItemCountUpdateAll(st, c, st'[c]);
    forall o: Obj ensures ObjectAccounted(st', roots + [was], o) {
      assert ObjectAccounted(st, roots + [v], o);
    }
  }

  /** Taking a reference to an object that survives a release commutes with that release. */
  lemma OwnReleaseCommute(st: Store, roots: seq<Value>, p: seq<Value>, v: Value)
    requires Accounted(st, roots + p)
    requires IsLive(st, v) && IsLive(Release(st, p), v)
    ensures Release(Own(st, v), p) == Own(Release(st, p), v)
  {
    hide Release, ItemCount, LiveCount, Count;
    if !v.Ref? { return; }
    var a := Release(Own(st, v), p);
    var b := Own(Release(st, p), v);
    OwnAccounted(st, roots + p, v);
    CountPush(roots + p, v);
    CountAppendAll(roots, p);
    CountPush(roots, v);
    CountAppendAll(roots + [v], p);
    AccountedSameRefs(Own(st, v), roots + p + [v], roots + [v] + p);
    ReleaseAccounted(Own(st, v), roots + [v], p);
    ReleaseAccounted(st, roots, p);
    OwnAccounted(Release(st, p), roots, v);
    ReleaseKeepsMost(Own(st, v), roots + [v], p, b);
    // Taking the extra reference back out of `a` gives a store that accounts for `roots`.
    assert ObjectAccounted(a, roots + [v], v.o);
    var c := a[v.o := a[v.o].(rc := a[v.o].rc - 1)];
    ItemCountUpdateAll(a, v.o, c[v.o]);
    forall o: Obj ensures ObjectAccounted(c, roots, o) {
      ItemCountMonotone(b, a, o);
      assert ObjectAccounted(a, roots + [v], o);
      assert ObjectAccounted(b, roots + [v], o);
      assert ObjectAccounted(Release(st, p), roots, o);
      ItemCountUpdate(Release(st, p), v.o, b[v.o], o);
    }
    ReleaseKeepsMost(st, roots, p, c);
    AccountedUnique(a, b, roots + [v]);
  }

  /** An object that something outside the store still refers to survives the release. */
  lemma RootedSurvives(st: Store, roots: seq<Value>, pending: seq<Value>, v: Value)
    requires Accounted(st, roots + pending)
    requires v.Ref? ==> v in roots
    ensures IsLive(st, v) && IsLive(Release(st, pending), v)
  {
    ReleaseAccounted(st, roots, pending);
    if v.Ref? {
      CountPositive(roots, v.o);
      CountAppend(roots, pending, v.o);
      assert ObjectAccounted(st, roots + pending, v.o);
      assert ObjectAccounted(Release(st, pending), roots, v.o);
    }
  }
}
