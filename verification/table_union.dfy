/** Adding the items of a table to a table, in memory: `insert_items` for two different tables, and
    what happens if a table is added to itself (e_table.c). */
module TableUnion {
  import opened Values
  import opened Resize
  import opened WeakReferences
  import opened SlotBlocks
  import opened SlotAccounting
  import opened TableSearch
  import opened Tables

  // ---------------------------------------------------------------------------------------
  // What disowning one value does to the others
  // ---------------------------------------------------------------------------------------

  /** A value is what it was, or a weak reference whose object has died. */
  predicate Faded(v: Item, v': Item) {
    v' == v || (v.IWeak? && v' == INil)
  }

  /** The same items, but for objects that have died. */
  ghost predicate Fades(es: seq<Entry>, es': seq<Entry>) {
    SameKeys(es, es') && forall i :: 0 <= i < |es| ==> Faded(es[i].value, es'[i].value)
  }

  /** The same, except for the value of item `p`. */
  ghost predicate FadesBut(es: seq<Entry>, es': seq<Entry>, p: int) {
    SameKeys(es, es') && forall i :: 0 <= i < |es| && i != p ==> Faded(es[i].value, es'[i].value)
  }

  /** The value of a copy: that of the item now, or nil if the object had died by the time it was
      copied. */
  predicate Taken(v: Item, d: Item, v': Item) {
    d == AsCopied(v) || (v.IWeak? && d == INil && v' == INil)
  }

  lemma FadesSelf(es: seq<Entry>, p: int)
    ensures Fades(es, es) && FadesBut(es, es, p)
  {
  }

  lemma FadesOn(a: seq<Entry>, b: seq<Entry>, c: seq<Entry>)
    requires Fades(a, b) && Fades(b, c)
    ensures Fades(a, c)
  {
  }

  lemma DisownedFades(v: View, a: Addr, hashes: seq<nat>, at: Addr, n: nat, p: int)
    requires AllUsed(v.content, at, at + 2 * n) && n <= |hashes| && StrongKeys(ReadEntries(v.content, hashes, at, n))
    requires a in v.content && (at <= a < at + 2 * n ==> 0 <= p && a == at + 2 * p + 1)
    ensures FadesBut(ReadEntries(v.content, hashes, at, n), ReadEntries(Disowned(v, a).content, hashes, at, n), p)
  {
    var es := ReadEntries(v.content, hashes, at, n);
    forall i | 0 <= i < n ensures Disowned(v, a).content[at + 2 * i] == v.content[at + 2 * i] {
      assert !es[i].key.IWeak?;
    }
  }

  // ---------------------------------------------------------------------------------------
  // The union of two maps
  // ---------------------------------------------------------------------------------------

  /** After the first `i` items have been added: a key that one of them has comes with a copy of
      its value, and any other key has what it had before. */
  ghost predicate MergedAt(es0: seq<Entry>, es: seq<Entry>, ss0: seq<Entry>, ss: seq<Entry>, i: nat, r: Rules, k: Item)
    requires |ss| == |ss0|
  {
    var p := Place(ss0, k, r);
    if 0 <= p < i then Lookup(es, k, r).Some? && Taken(ss0[p].value, Lookup(es, k, r).value, ss[p].value)
    else FadedOption(Lookup(es0, k, r), Lookup(es, k, r))
  }

  predicate FadedOption(v: Option<Item>, v': Option<Item>) {
    if v.None? then v'.None? else v'.Some? && Faded(v.value, v'.value)
  }

  ghost predicate Merged(es0: seq<Entry>, es: seq<Entry>, ss0: seq<Entry>, ss: seq<Entry>, i: nat, r: Rules) {
    |ss| == |ss0| && forall k :: MergedAt(es0, es, ss0, ss, i, r, k)
  }

  lemma NothingMerged(es: seq<Entry>, ss: seq<Entry>, r: Rules)
    ensures Merged(es, es, ss, ss, 0, r)
  {
  }

  /** One more item. `ew` is what is left of `es` when the value that is replaced, if there is one,
      has been disowned. */
  lemma MergeRound(es0: seq<Entry>, es: seq<Entry>, ew: seq<Entry>, ss0: seq<Entry>, ss: seq<Entry>, ss': seq<Entry>,
                   i: nat, r: Rules)
    requires Sound(es, r) && Sound(ew, r) && Sound(ss0, r) && RulesOk(r) && i < |ss0|
    requires Merged(es0, es, ss0, ss, i, r) && Fades(ss0, ss) && Fades(ss, ss')
    requires FadesBut(es, ew, Place(es, ss0[i].key, r))
    ensures Merged(es0, SetEntry(ew, ss0[i].key, AsCopied(ss'[i].value), r), ss0, ss', i + 1, r)
  {
    hide Sound, RulesOk, MergedAt, SetEntry;
    var es', j := SetEntry(ew, ss0[i].key, AsCopied(ss'[i].value), r), i + 1;
    forall k: Item ensures MergedAt(es0, es', ss0, ss', j, r, k) {
      KeyMerged(es0, es, ew, ss0, ss, ss', i, r, k);
    }
  }

  lemma KeyMerged(es0: seq<Entry>, es: seq<Entry>, ew: seq<Entry>, ss0: seq<Entry>, ss: seq<Entry>, ss': seq<Entry>,
                  i: nat, r: Rules, k: Item)
    requires Sound(es, r) && Sound(ew, r) && Sound(ss0, r) && RulesOk(r) && i < |ss0|
    requires |ss| == |ss0| && MergedAt(es0, es, ss0, ss, i, r, k) && Fades(ss0, ss) && Fades(ss, ss')
    requires FadesBut(es, ew, Place(es, ss0[i].key, r))
    ensures MergedAt(es0, SetEntry(ew, ss0[i].key, AsCopied(ss'[i].value), r), ss0, ss', i + 1, r, k)
  {
    hide Sound, RulesOk, SetEntry, Place, Lookup;
    var key := ss0[i].key;
    SetRefines(ew, key, AsCopied(ss'[i].value), r, k);
    PlaceMeans(ss0, k, r);
    SameTurned(r, key, k);
    assert HasAt(ss0, k, r, i) <==> r.same(key, k);
    if !r.same(key, k) {
      LookupFades(es, ew, key, r, k);
    }
  }

  lemma LookupFades(es: seq<Entry>, ew: seq<Entry>, key: Item, r: Rules, k: Item)
    requires Sound(es, r) && Sound(ew, r) && RulesOk(r) && FadesBut(es, ew, Place(es, key, r)) && !r.same(key, k)
    ensures FadedOption(Lookup(es, k, r), Lookup(ew, k, r))
  {
    hide Sound, RulesOk, Place;
    SamePlace(es, ew, k, r);
    PlaceMeans(es, key, r);
    PlaceMeans(es, k, r);
    var p, q := Place(es, key, r), Place(es, k, r);
    if p >= 0 {
      assert HasAt(es, key, r, p);
      SameThrough(r, key, es[p].key, k);
      SameTurned(r, es[p].key, k);
    }
    assert q >= 0 ==> HasAt(es, k, r, q);
  }

  // ---------------------------------------------------------------------------------------
  // In memory
  // ---------------------------------------------------------------------------------------

  /** Two blocks that do not overlap. */
  predicate Apart(a: Addr, n: nat, b: Addr, m: nat) {
    a + n <= b || b + m <= a
  }

  /** Stands for `realloc`: any address that will do, and is not in the block of `m` slots at `b`. */
  method Realloc(mem: Memory, items: Addr, max: nat, n: nat, b: Addr, m: nat) returns (at: Addr)
    requires mem.Valid() && Apart(items, max, b, m)
    ensures CanMoveTo(mem.V().content, items, max, at, n) && Apart(at, n, b, m)
  {
    hide Exact;
    if n <= max {
      return items;
    }
    at := items + max + b + m;
    var rest := mem.slots.Keys;
    while rest != {}
      invariant at >= items + max + b + m
      invariant forall a :: a in mem.slots && a !in rest ==> a < at
      decreases |rest|
    {
      var a :| a in rest;
      if a >= at {
        at := a + 1;
      }
      rest := rest - {a};
    }
    UsedAreSlots(mem.slots, mem.vecs, mem.used);
  }

  lemma UsedAreSlots(slots: map<Addr, Slot>, vecs: map<Obj, Vector>, used: set<Addr>)
    requires Exact(slots, vecs, used)
    ensures forall a :: a in used ==> a in slots
  {
  }

  /** `t__setindex` of a key that is there, with a value from another slot. The value that is
      replaced is disowned first, and if that was the end of an object that the other slot refers to
      weakly, then the slot is nil when it is copied. */
  method ReplaceFrom(t: Table, p: nat, ghost key: Source, from: Addr)
    requires t.Valid() && p < t.length && p == Place(t.Entries(), CopyItem(key), t.rules)
    requires from in t.mem.V().content && from != t.items + 2 * p + 1
    modifies t.mem
    ensures t.Valid()
    ensures var w := Disowned(old(t.mem.V()), t.items + 2 * p + 1);
      && AllUsed(w.content, t.items, t.items + 2 * t.length)
      && SameKeys(old(t.Entries()), ReadEntries(w.content, t.hashes, t.items, t.length))
      && t.Entries() == SetEntry(ReadEntries(w.content, t.hashes, t.items, t.length), CopyItem(key),
                                 AsCopied(w.content[from]), t.rules)
      && t.Others() == Outside(w.content, t.items, 2 * t.asize)
      && t.mem.rc == (if AsCopied(w.content[from]).IStrong? then MoreOwners(w.rc, AsCopied(w.content[from]).o)
         else w.rc)
    ensures Keeps(old(t.mem.V()), t.mem.V())
  {
    hide ReadEntries, Outside, Exact, Contents, Laid, CopyOwners, CopyItem, Sound, RulesOk, Place, SetEntry, Disowned,
         Copied, Keeps;
    ghost var v, es := t.mem.V(), t.Entries();
    var a := t.items + 2 * p + 1;
    LaidRange(v.content, t.items, 2 * t.length, 2 * t.asize);
    GoneKeeps(v, a);
    t.mem.DisownForget(a);
    ghost var w := Disowned(v, a);
    ContentAt(t.mem.slots, t.mem.vecs, t.mem.used, from);
    var value := SourceOf(t.mem.slots[from]);
    assert CopyItem(value) == AsCopied(w.content[from]);
    OwnersOf(w.rc, value);
    CopyOfSlotKeeps(v, t.mem.V(), a, from, value);
    t.mem.Copy(a, value);
    LaidSame(v.content, w.content, t.items, 2 * t.length, 2 * t.asize);
    KeysKept(v, t.hashes, t.items, t.length, a);
    ValueReplaced(w, t.hashes, t.items, t.length, t.asize, p, value);
    ReplaceIsSet(es, ReadEntries(w.content, t.hashes, t.items, t.length), p, CopyItem(key), CopyItem(value), t.rules);
  }

  lemma OwnersOf(rc: map<Obj, nat>, src: Source)
    requires !src.FromUnwired?
    ensures CopyOwners(rc, src) == if CopyItem(src).IStrong? then MoreOwners(rc, CopyItem(src).o) else rc
  {
  }

  /** What is in a block that is apart from the one that has changed is what was there. */
  lemma ApartKept(c: Content, at: Addr, n: nat, c': Content, at': Addr, n': nat, b: Addr, m: nat)
    requires Outside(c', at', n') == Outside(c, at, n) && Apart(at, n, b, m) && Apart(at', n', b, m)
    ensures SameSlots(c, c', b, b + m)
  {
    forall a | b <= a < b + m ensures (a in c' <==> a in c) && (a in c ==> c'[a] == c[a]) {
      assert a in Outside(c', at', n') <==> a in c';
      assert a in Outside(c, at, n) <==> a in c;
    }
  }

  ghost predicate SameSlots(c: Content, c': Content, lo: Addr, hi: Addr) {
    forall a :: lo <= a < hi ==> (a in c' <==> a in c) && (a in c ==> c'[a] == c[a])
  }

  lemma SameBlock(c: Content, c': Content, hashes: seq<nat>, at: Addr, n: nat, asize: nat)
    requires Laid(c, at, 2 * n, 2 * asize) && SameSlots(c, c', at, at + 2 * asize)
    ensures Laid(c', at, 2 * n, 2 * asize)
    ensures ReadEntries(c', hashes, at, n) == ReadEntries(c, hashes, at, n)
  {
  }

  /** What a block holds after the disowning of a value in another block, which has changed
      otherwise as well. */
  lemma AfterReplace(v: View, a: Addr, c': Content, at: Addr, m: nat, hashes: seq<nat>, b: Addr, n: nat, asize: nat,
                     r: Rules)
    requires Laid(v.content, b, 2 * n, 2 * asize) && n <= |hashes| && Apart(at, m, b, 2 * asize)
    requires Sound(ReadEntries(v.content, hashes, b, n), r) && StrongKeys(ReadEntries(v.content, hashes, b, n))
    requires a in v.content && at <= a < at + m && Outside(c', at, m) == Outside(Disowned(v, a).content, at, m)
    ensures Laid(c', b, 2 * n, 2 * asize) && SameSlots(Disowned(v, a).content, c', b, b + 2 * asize)
    ensures Fades(ReadEntries(v.content, hashes, b, n), ReadEntries(c', hashes, b, n))
    ensures Sound(ReadEntries(c', hashes, b, n), r) && StrongKeys(ReadEntries(c', hashes, b, n))
  {
    hide ReadEntries, Outside, Sound, Laid, Disowned, SameSlots;
    var w := Disowned(v, a);
    LaidRange(v.content, b, 2 * n, 2 * asize);
    LaidSame(v.content, w.content, b, 2 * n, 2 * asize);
    DisownedFades(v, a, hashes, b, n, -1);
    ApartKept(w.content, at, m, c', at, m, b, 2 * asize);
    SameBlock(w.content, c', hashes, b, n, asize);
    ValuesSound(ReadEntries(v.content, hashes, b, n), ReadEntries(c', hashes, b, n), r);
    StillStrong(ReadEntries(v.content, hashes, b, n), ReadEntries(c', hashes, b, n));
  }

  /** Item `i` of a table, as a source to copy from. */
  lemma ItemSlots(slots: map<Addr, Slot>, vecs: map<Obj, Vector>, used: set<Addr>, hashes: seq<nat>, at: Addr,
                  n: nat, asize: nat, i: nat)
    requires Exact(slots, vecs, used) && Laid(Contents(slots, used), at, 2 * n, 2 * asize) && i < n <= |hashes|
    requires StrongKeys(ReadEntries(Contents(slots, used), hashes, at, n))
    ensures var k, e := at + 2 * i, ReadEntries(Contents(slots, used), hashes, at, n)[i];
      && k in slots && k + 1 in slots && k in used && k + 1 in used
      && Contents(slots, used)[k] == e.key && Contents(slots, used)[k + 1] == e.value
      && CopyItem(SourceOf(slots[k])) == e.key && CopyItem(SourceOf(slots[k + 1])) == AsCopied(e.value)
  {
    hide Exact;
    UsedAreSlots(slots, vecs, used);
    var k := at + 2 * i;
    assert k in used && k + 1 in used;
    ContentAt(slots, vecs, used, k);
    ContentAt(slots, vecs, used, k + 1);
    assert !ReadEntries(Contents(slots, used), hashes, at, n)[i].key.IWeak?;
  }

  predicate Within(a: Addr, lo: Addr, n: nat) {
    lo <= a < lo + n
  }

  /** What has happened to all slots but those of another block: when the block of `n` slots at `at`
      became the block of `n'` slots at `at'`, some weak references elsewhere may have become nil,
      and that is all. */
  ghost predicate RestKept(c: Content, at: Addr, n: nat, c': Content, at': Addr, n': nat, b: Addr, m: nat) {
    && (forall a :: !Within(a, at, n) && !Within(a, at', n') && !Within(a, b, m) ==>
          (a in c' <==> a in c) && (a in c ==> Faded(c[a], c'[a])))
    && (forall a :: Within(a, at', n') && !Within(a, at, n) ==> a !in c)
    && (forall a :: Within(a, at, n) && !Within(a, at', n') ==> a !in c')
  }

  lemma RestSame(c: Content, at: Addr, n: nat, b: Addr, m: nat)
    ensures RestKept(c, at, n, c, at, n, b, m)
  {
  }

  lemma RestOn(c: Content, at: Addr, n: nat, c1: Content, at1: Addr, n1: nat, c2: Content, at2: Addr, n2: nat,
               b: Addr, m: nat)
    requires RestKept(c, at, n, c1, at1, n1, b, m) && RestKept(c1, at1, n1, c2, at2, n2, b, m)
    requires Apart(at, n, b, m) && Apart(at1, n1, b, m) && Apart(at2, n2, b, m)
    ensures RestKept(c, at, n, c2, at2, n2, b, m)
  {
    forall a | Within(a, at2, n2) && !Within(a, at, n) ensures a !in c {
      assert !Within(a, b, m);
      if !Within(a, at1, n1) { assert a !in c1; }
    }
    forall a | Within(a, at, n) && !Within(a, at2, n2) ensures a !in c2 {
      assert !Within(a, b, m);
      if !Within(a, at1, n1) { assert a !in c1; }
    }
  }

  lemma RestAfterReplace(v: View, s: Addr, c': Content, at: Addr, n: nat, b: Addr, m: nat)
    requires s in v.content && Within(s, at, n) && Outside(c', at, n) == Outside(Disowned(v, s).content, at, n)
    ensures RestKept(v.content, at, n, c', at, n, b, m)
  {
    var w := Disowned(v, s).content;
    forall a | !Within(a, at, n) ensures (a in c' <==> a in w) && (a in w ==> c'[a] == w[a]) {
      assert a in Outside(c', at, n) <==> a in c';
      assert a in Outside(w, at, n) <==> a in w;
    }
  }

  lemma RestAfterInsert(c: Content, at: Addr, n: nat, c': Content, at': Addr, n': nat, b: Addr, m: nat)
    requires Outside(c', at', n') == Outside(c, at, n) && CanMoveTo(c, at, n, at', n')
    ensures RestKept(c, at, n, c', at', n', b, m)
  {
    forall a | !Within(a, at', n') ensures (a in c' <==> a in c && !Within(a, at, n)) && (a in c' ==> c'[a] == c[a]) {
      assert a in Outside(c', at', n') <==> a in c';
      assert a in Outside(c, at, n) <==> a in c && !Within(a, at, n);
    }
  }

  // ---------------------------------------------------------------------------------------
  // insert_items
  // ---------------------------------------------------------------------------------------

  /** One round of `insert_items`, for item `i` of `src`. `ew` is what the items were when the value
      to be replaced, if there is one, had been disowned. */
  method InsertOne(t: Table, src: Table, i: nat) returns (ghost ew: seq<Entry>)
    requires t.Valid() && src.Valid() && src != t && src.mem == t.mem && src.rules == t.rules && i < src.length
    requires Apart(t.items, 2 * t.asize, src.items, 2 * src.asize)
    modifies t, t.mem
    ensures t.Valid() && src.Valid() && Apart(t.items, 2 * t.asize, src.items, 2 * src.asize)
    ensures Fades(old(src.Entries()), src.Entries())
    ensures Sound(ew, t.rules)
            && FadesBut(old(t.Entries()), ew, Place(old(t.Entries()), old(src.Entries())[i].key, t.rules))
    ensures t.Entries() == SetEntry(ew, old(src.Entries())[i].key, AsCopied(src.Entries()[i].value), t.rules)
    ensures RestKept(old(t.mem.V()).content, old(t.items), 2 * old(t.asize),
                     t.mem.V().content, t.items, 2 * t.asize, src.items, 2 * src.asize)
    ensures Keeps(old(t.mem.V()), t.mem.V())
  {
    hide ReadEntries, Outside, Exact, Contents, Laid, CopyOwners, CopyItem, Sound, RulesOk, Place, SetEntry, Disowned,
         Inserted, CanMoveTo, CalcResize, SameKeys, FadesBut, StrongKeys, SourceOf, AsCopied, Apart, SameSlots, Fades,
         RestKept, Keeps;
    ghost var es := t.Entries();
    var k := src.items + 2 * i;
    ItemSlots(t.mem.slots, t.mem.vecs, t.mem.used, src.hashes, src.items, src.length, src.asize, i);
    var key := SourceOf(t.mem.slots[k]);
    KeySame(es, key, t.rules);
    PlaceBound(es, CopyItem(key), t.rules);
    var p := Find(t.Items(), KeyItem(key), t.rules) by { SoundSorted(es, t.rules); }
    if p >= 0 {
      ew := ReplaceOne(t, src, i, p);
    } else {
      ew := es;
      FadesSelf(es, p);
      FadesSelf(src.Entries(), p);
      AddOne(t, src, i, Not(p));
    }
  }

  method ReplaceOne(t: Table, src: Table, i: nat, p: nat) returns (ghost ew: seq<Entry>)
    requires t.Valid() && src.Valid() && src != t && src.mem == t.mem && src.rules == t.rules && i < src.length
    requires Apart(t.items, 2 * t.asize, src.items, 2 * src.asize)
    requires p < t.length && p == Place(t.Entries(), src.Entries()[i].key, t.rules)
    modifies t.mem
    ensures t.Valid() && src.Valid()
    ensures Fades(old(src.Entries()), src.Entries())
    ensures Sound(ew, t.rules) && FadesBut(old(t.Entries()), ew, p)
    ensures t.Entries() == SetEntry(ew, old(src.Entries())[i].key, AsCopied(src.Entries()[i].value), t.rules)
    ensures RestKept(old(t.mem.V()).content, old(t.items), 2 * old(t.asize),
                     t.mem.V().content, t.items, 2 * t.asize, src.items, 2 * src.asize)
    ensures Keeps(old(t.mem.V()), t.mem.V())
  {
    hide ReadEntries, Outside, Exact, Contents, CopyOwners, CopyItem, Sound, RulesOk, Place, SetEntry, Disowned,
         Inserted, CanMoveTo, CalcResize, StrongKeys, SourceOf, AsCopied, SameSlots, Fades, FadesBut, Laid, RestKept,
         Keeps;
    ghost var v, es, ss := t.mem.V(), t.Entries(), src.Entries();
    var k := src.items + 2 * i;
    ItemSlots(t.mem.slots, t.mem.vecs, t.mem.used, src.hashes, src.items, src.length, src.asize, i);
    ghost var key := SourceOf(t.mem.slots[k]);
    var a := t.items + 2 * p + 1;
    ValueSlot(v.content, t.items, t.length, t.asize, p);
    ReplaceFrom(t, p, key, k + 1);
    ghost var w := Disowned(v, a);
    ew := ReadEntries(w.content, t.hashes, t.items, t.length);
    DisownedFades(v, a, t.hashes, t.items, t.length, p);
    ValuesSound(es, ew, t.rules);
    AfterReplace(v, a, t.mem.V().content, t.items, 2 * t.asize, src.hashes, src.items, src.length, src.asize, t.rules);
    ItemSlots(t.mem.slots, t.mem.vecs, t.mem.used, src.hashes, src.items, src.length, src.asize, i);
    SlotSame(w.content, t.mem.V().content, src.items, 2 * src.asize, k + 1);
    RestAfterReplace(v, a, t.mem.V().content, t.items, 2 * t.asize, src.items, 2 * src.asize);
  }

  lemma ValueSlot(c: Content, at: Addr, n: nat, asize: nat, p: nat)
    requires Laid(c, at, 2 * n, 2 * asize) && p < n
    ensures AllUsed(c, at, at + 2 * n) && at + 2 * p + 1 in c && n <= asize
  {
  }

  lemma SlotSame(c: Content, c': Content, b: Addr, m: nat, a: Addr)
    requires SameSlots(c, c', b, b + m) && b <= a < b + m && a in c
    ensures a in c' && c'[a] == c[a]
  {
  }

  method AddOne(t: Table, src: Table, i: nat, pos: nat)
    requires t.Valid() && src.Valid() && src != t && src.mem == t.mem && src.rules == t.rules && i < src.length
    requires Apart(t.items, 2 * t.asize, src.items, 2 * src.asize)
    requires pos <= t.length && pos == Not(Place(t.Entries(), src.Entries()[i].key, t.rules))
    modifies t, t.mem
    ensures t.Valid() && src.Valid() && Apart(t.items, 2 * t.asize, src.items, 2 * src.asize)
    ensures src.Entries() == old(src.Entries())
    ensures t.Entries() == SetEntry(old(t.Entries()), src.Entries()[i].key, AsCopied(src.Entries()[i].value), t.rules)
    ensures RestKept(old(t.mem.V()).content, old(t.items), 2 * old(t.asize),
                     t.mem.V().content, t.items, 2 * t.asize, src.items, 2 * src.asize)
    ensures Keeps(old(t.mem.V()), t.mem.V())
  {
    hide ReadEntries, Outside, Exact, Contents, CopyOwners, CopyItem, Sound, RulesOk, Place, SetEntry, Inserted,
         CanMoveTo, CalcResize, StrongKeys, SourceOf, AsCopied, SameSlots, Laid, Apart, RestKept, Keeps, Steady,
         Copyable;
    ghost var v, es := t.mem.V(), t.Entries();
    ghost var items, asize := t.items, t.asize;
    var k := src.items + 2 * i;
    ItemSlots(t.mem.slots, t.mem.vecs, t.mem.used, src.hashes, src.items, src.length, src.asize, i);
    var key, value := SourceOf(t.mem.slots[k]), SourceOf(t.mem.slots[k + 1]);
    SetIsInsert(es, key, value, t.rules);
    var at := Realloc(t.mem, t.items, 2 * t.asize, 2 * CalcResize(TABLE_SIZEBASE, t.asize, t.length + 1), src.items,
      2 * src.asize);
    StoredCopyable(t.mem.slots, t.mem.vecs, t.mem.used, t.mem.rc, k);
    StoredCopyable(t.mem.slots, t.mem.vecs, t.mem.used, t.mem.rc, k + 1);
    t.InsertItem(pos, key, value, t.rules.hash(KeyItem(key)), at);
    if !Steady(v) { NotSteady(v, t.mem.V()); }
    ApartKept(v.content, items, 2 * asize, t.mem.V().content, t.items, 2 * t.asize, src.items, 2 * src.asize);
    SameBlock(v.content, t.mem.V().content, src.hashes, src.items, src.length, src.asize);
    if t.asize == asize { Stays(v.content, items, 2 * asize); }
    RestAfterInsert(v.content, items, 2 * asize, t.mem.V().content, t.items, 2 * t.asize, src.items, 2 * src.asize);
  }

  lemma Stays(c: Content, at: Addr, n: nat)
    ensures CanMoveTo(c, at, n, at, n)
  {
  }

  /** `insert_items`, for two different tables: every key of `src` comes with a copy of its value, or
      with nil if that was a weak reference to an object that died on the way, when some other value
      was replaced. All other keys keep their values, and nothing else in memory changes, but for
      weak references to such objects. */
  method InsertItems(t: Table, src: Table)
    requires t.Valid() && src.Valid() && src != t && src.mem == t.mem && src.rules == t.rules
    requires Apart(t.items, 2 * t.asize, src.items, 2 * src.asize)
    modifies t, t.mem
    ensures t.Valid() && src.Valid() && Apart(t.items, 2 * t.asize, src.items, 2 * src.asize)
    ensures Fades(old(src.Entries()), src.Entries())
    ensures Merged(old(t.Entries()), t.Entries(), old(src.Entries()), src.Entries(), src.length, t.rules)
    ensures RestKept(old(t.mem.V()).content, old(t.items), 2 * old(t.asize),
                     t.mem.V().content, t.items, 2 * t.asize, src.items, 2 * src.asize)
    ensures Keeps(old(t.mem.V()), t.mem.V())
  {
    hide ReadEntries, Exact, Contents, Laid, Sound, RulesOk, Place, SetEntry, FadesBut, StrongKeys, Apart, Fades,
         RestKept, Merged, Keeps;
    ghost var v0, es0, ss0 := t.mem.V(), t.Entries(), src.Entries();
    KeepsSelf(v0);
    ghost var at0, n0 := t.items, 2 * t.asize;
    NothingMerged(es0, ss0, t.rules);
    FadesSelf(ss0, 0);
    RestSame(v0.content, at0, n0, src.items, 2 * src.asize);
    var c := src.length;
    for i := 0 to c
      invariant t.Valid() && src.Valid() && Apart(t.items, 2 * t.asize, src.items, 2 * src.asize)
      invariant Fades(ss0, src.Entries()) && Merged(es0, t.Entries(), ss0, src.Entries(), i, t.rules)
      invariant RestKept(v0.content, at0, n0, t.mem.V().content, t.items, 2 * t.asize, src.items, 2 * src.asize)
      invariant Keeps(v0, t.mem.V())
    {
      ghost var v1 := t.mem.V();
      ghost var c1, at1, n1, es, ss := v1.content, t.items, 2 * t.asize, t.Entries(), src.Entries();
      ghost var ew := InsertOne(t, src, i);
      KeyKept(ss0, ss, i);
      MergeRound(es0, es, ew, ss0, ss, src.Entries(), i, t.rules);
      FadesOn(ss0, ss, src.Entries());
      KeepsOn(v0, v1, t.mem.V());
      RestOn(v0.content, at0, n0, c1, at1, n1, t.mem.V().content, t.items, 2 * t.asize, src.items, 2 * src.asize);
    }
  }

  lemma KeyKept(es: seq<Entry>, es': seq<Entry>, i: nat)
    requires Fades(es, es') && i < |es|
    ensures |es'| == |es| && es'[i].key == es[i].key
  {
  }

  // ---------------------------------------------------------------------------------------
  // A table that is added to itself
  // ---------------------------------------------------------------------------------------

  /** What is left of the items when the first `n` values have been replaced by themselves: a weak
      reference is nil once it has been disowned. */
  function SelfAdded(es: seq<Entry>, n: nat): (r: seq<Entry>)
    ensures |r| == |es|
  {
    seq(|es|, i requires 0 <= i < |es| =>
      if i < n && es[i].value.IWeak? then es[i].(value := INil) else es[i])
  }

  /** A value that can be disowned without the end of its object. */
  predicate HasOther(v: Item, rc: map<Obj, nat>) {
    v.IStrong? ==> v.o in rc && rc[v.o] > 1
  }

  /** Replacing the value in a slot by itself. */
  lemma Replaced(v: View, a: Addr, src: Source)
    requires a in v.content && HasOther(v.content[a], v.rc) && !src.FromUnwired?
    requires CopyItem(src) == AsCopied(Disowned(v, a).content[a]) && !src.FromWired?
    ensures var w := Disowned(v, a);
      && CopyOwners(w.rc, src) == v.rc
      && CopyItem(src) == (if v.content[a].IWeak? then INil else v.content[a])
      && (forall b :: b in v.content && b != a ==> w.content[b] == v.content[b])
  {
  }

  lemma SelfCopyable(v: View, a: Addr, src: Source)
    requires a in v.content && HasOther(v.content[a], v.rc) && !src.FromUnwired?
    requires CopyItem(src) == AsCopied(Disowned(v, a).content[a]) && !src.FromWired?
    ensures Copyable(Gone(v, a), src)
  {
  }

  /** What replacing a value by itself leaves. */
  function Remains(v: Item): Item {
    if v.IWeak? then INil else v
  }

  /** `t__setindex` with the value that it replaces. */
  method ReplaceBySelf(t: Table, p: nat)
    requires t.Valid() && p < t.length && HasOther(t.Entries()[p].value, t.mem.rc)
    modifies t.mem
    ensures t.Valid() && t.Entries()
            == old(t.Entries())[p := old(t.Entries())[p].(value := Remains(old(t.Entries())[p].value))]
    ensures t.Others() == old(t.Others()) && t.mem.rc == old(t.mem.rc)
    ensures Keeps(old(t.mem.V()), t.mem.V())
  {
    hide ReadEntries, Exact, Contents, Laid, Sound, RulesOk, StrongKeys, Outside, Disowned, Copied, CopyOwners, Keeps,
         Copyable;
    ghost var v, es := t.mem.V(), t.Entries();
    var a := t.items + 2 * p + 1;
    ItemSlots(t.mem.slots, t.mem.vecs, t.mem.used, t.hashes, t.items, t.length, t.asize, p);
    LaidRange(v.content, t.items, 2 * t.length, 2 * t.asize);
    t.mem.Disown(a);
    ghost var w := t.mem.V();
    ContentAt(t.mem.slots, t.mem.vecs, t.mem.used, a);
    var value := SourceOf(t.mem.slots[a]);
    DisownedNotWeak(v, a);
    t.mem.Forget(a, a + 1);
    GoneKeeps(v, a);
    SelfCopyable(v, a, value);
    CopyKeeps(v, t.mem.V(), a, value);
    t.mem.Copy(a, value);
    Replaced(v, a, value);
    LaidSame(v.content, w.content, t.items, 2 * t.length, 2 * t.asize);
    ValueReplaced(w, t.hashes, t.items, t.length, t.asize, p, value);
    SelfReplaced(v, w, t.hashes, t.items, t.length, t.asize, p, CopyItem(value));
    RemainsSound(es, p, t.rules);
  }

  lemma RemainsSound(es: seq<Entry>, p: nat, r: Rules)
    requires Sound(es, r) && StrongKeys(es) && p < |es|
    ensures var es' := es[p := es[p].(value := Remains(es[p].value))]; Sound(es', r) && StrongKeys(es')
  {
    hide Sound;
    ValuesSound(es, es[p := es[p].(value := Remains(es[p].value))], r);
  }

  lemma SelfReplaced(v: View, w: View, hashes: seq<nat>, at: Addr, n: nat, asize: nat, i: nat, value: Item)
    requires Laid(v.content, at, 2 * n, 2 * asize) && i < n <= asize == |hashes| && w.content.Keys == v.content.Keys
    requires forall b :: b in v.content && b != at + 2 * i + 1 ==> w.content[b] == v.content[b]
    ensures var es, ew := ReadEntries(v.content, hashes, at, n), ReadEntries(w.content, hashes, at, n);
      ew[i := ew[i].(value := value)] == es[i := es[i].(value := value)]
    ensures Outside(w.content, at, 2 * asize) == Outside(v.content, at, 2 * asize)
  {
    var es, ew := ReadEntries(v.content, hashes, at, n), ReadEntries(w.content, hashes, at, n);
    forall j | 0 <= j < n ensures ew[j].hash == es[j].hash && ew[j].key == es[j].key && (j != i ==> ew[j] == es[j]) {
      assert at + 2 * j in v.content && at + 2 * j + 1 in v.content;
      assert w.content[at + 2 * j] == v.content[at + 2 * j];
    }
  }

  /** `insert_items` of a table into itself (`t_ipadd`). `ok` is false if an object is used after it
      has been destroyed. That happens if and only if the table is the only owner of one of its
      values, in one place. If it does not happen then nothing changes, except that values that are
      weak references are lost: the table is what it was if and only if there are none. */
  method InsertSelf(t: Table) returns (ok: bool)
    requires t.Valid()
    modifies t.mem
    ensures ok <==> forall i :: 0 <= i < t.length ==> HasOther(old(t.Entries())[i].value, old(t.mem.rc))
    ensures ok ==> t.Valid() && t.Entries() == SelfAdded(old(t.Entries()), t.length)
    ensures ok ==> t.Others() == old(t.Others()) && t.mem.rc == old(t.mem.rc)
    ensures ok ==> Keeps(old(t.mem.V()), t.mem.V())
    ensures ok ==>
      (t.Entries() == old(t.Entries()) <==> forall i :: 0 <= i < t.length ==> !old(t.Entries())[i].value.IWeak?)
  {
    hide ReadEntries, Exact, Contents, Laid, Sound, RulesOk, Place, StrongKeys, Outside, SelfAdded, AsCopied, Keeps;
    ghost var es0, rest0, v0 := t.Entries(), t.Others(), t.mem.V();
    KeepsSelf(v0);
    SelfNone(es0);
    for i := 0 to t.length
      invariant t.Valid() && t.Entries() == SelfAdded(es0, i) && t.Others() == rest0 && t.mem.rc == old(t.mem.rc)
      invariant forall j :: 0 <= j < i ==> HasOther(es0[j].value, t.mem.rc)
      invariant Keeps(v0, t.mem.V())
    {
      var p := FindOwn(t, i);
      var s := t.mem.slots[t.items + 2 * p + 1];
      SelfAt(es0, i, i);
      if s.Strong? && (s.o !in t.mem.rc || t.mem.rc[s.o] <= 1) {
        assert !HasOther(es0[i].value, t.mem.rc);
        return false;
      }
      ghost var v1 := t.mem.V();
      ReplaceBySelf(t, p);
      KeepsOn(v0, v1, t.mem.V());
      SelfNext(es0, i);
    }
    forall i | 0 <= i < |es0| ensures SelfAdded(es0, |es0|)[i] == es0[i] <==> !es0[i].value.IWeak? {
      SelfAt(es0, |es0|, i);
    }
    ok := true;
  }

  /** Item `i` is found where it is. */
  method FindOwn(t: Table, i: nat) returns (p: nat)
    requires t.Valid() && i < t.length
    ensures p == i && t.items + 2 * p + 1 in t.mem.slots
    ensures ItemOf(t.mem.slots[t.items + 2 * p + 1]) == t.Entries()[i].value
  {
    hide ReadEntries, Exact, Contents, Laid, Sound, RulesOk, Place, StrongKeys, Outside, AsCopied, SourceOf, CopyItem,
         KeyItem;
    ItemSlots(t.mem.slots, t.mem.vecs, t.mem.used, t.hashes, t.items, t.length, t.asize, i);
    ContentAt(t.mem.slots, t.mem.vecs, t.mem.used, t.items + 2 * i + 1);
    var key := SourceOf(t.mem.slots[t.items + 2 * i]);
    KeySame(t.Entries(), key, t.rules);
    OwnPlace(t.Entries(), i, t.rules);
    p := Find(t.Items(), KeyItem(key), t.rules) by { SoundSorted(t.Entries(), t.rules); }
  }

  lemma SelfNext(es: seq<Entry>, i: nat)
    requires i < |es|
    ensures var r := SelfAdded(es, i); r[i := r[i].(value := Remains(r[i].value))] == SelfAdded(es, i + 1)
  {
  }

  lemma SelfNone(es: seq<Entry>)
    ensures SelfAdded(es, 0) == es
  {
  }

  lemma SelfAt(es: seq<Entry>, n: nat, i: nat)
    requires i < |es|
    ensures SelfAdded(es, n)[i] == if i < n && es[i].value.IWeak? then es[i].(value := INil) else es[i]
  {
  }

  /** A table finds its own keys where they are. */
  lemma OwnPlace(es: seq<Entry>, i: nat, r: Rules)
    requires Sound(es, r) && RulesOk(r) && i < |es|
    ensures Place(es, es[i].key, r) == i
  {
    hide Place;
    PlaceMeans(es, es[i].key, r);
    assert HasAt(es, es[i].key, r, i);
  }
}
