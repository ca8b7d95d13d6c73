/** The pool of "alloc and forget" string buffers (e_util.c): buffers that are handed out can be
    freed, but if they are not, they are taken back when the pool runs dry. */
module StringBuffers {
  import opened Values
  import opened LinkedLists

  const SBUFFERS: nat := 16
  const SBUFFER_BYTES: nat := 272   // 256 characters and two links

  /** The two lists of the pool, as sequences: the allocated buffers, oldest first, and the free
      ones in the order in which they were freed. */
  datatype Lists = Lists(used: seq<Node>, free: seq<Node>)

  /** Every buffer is in exactly one of the lists, once. */
  ghost predicate Partition(p: Lists) {
    && Distinct(p.used + p.free) && |p.used| + |p.free| == SBUFFERS
    && forall i :: 0 <= i < |p.used + p.free| ==> (p.used + p.free)[i] < SBUFFERS
  }

  function Opened(): Lists {
    Lists([], seq(SBUFFERS, i => i))
  }

  /** `eel_salloc`: the buffer that was freed last, or else the one allocated first. */
  function Alloc(p: Lists): (r: (Lists, Node))
    requires |p.used| + |p.free| == SBUFFERS
  {
    if p.free != [] then
      var b := p.free[|p.free| - 1];
      (Lists(p.used + [b], p.free[..|p.free| - 1]), b)
    else (Lists(p.used[1..] + [p.used[0]], []), p.used[0])
  }

  /** `eel_sfree`: the buffer becomes the last free one, also if it was free already. */
  function Free(p: Lists, b: Node): Lists {
    Lists(Without(p.used, b), Without(p.free, b) + [b])
  }

  /** Buffers that may be freed: those that are allocated, and free ones that are neither the first
      nor the last of the free list. */
  predicate Harmless(p: Lists, b: Node) {
    b in p.used || (b in p.free && b != p.free[0] && b != p.free[|p.free| - 1])
  }

  // ---------------------------------------------------------------------------------------
  // The pool
  // ---------------------------------------------------------------------------------------

  class Pool {
    const links: Links
    const asb: DLList
    const fsb: DLList
    ghost var lists: Lists

    ghost predicate Valid()
      reads this, links, asb, fsb
    {
      && asb != fsb && Partition(lists)
      && asb.Holds(links, lists.used) && fsb.Holds(links, lists.free)
    }

    /** `eel_sbuffer_open`. */
    constructor ()
      ensures Valid() && lists == Opened() && fresh(links) && fresh(asb) && fresh(fsb)
    {
      links := new Links();
      asb := new DLList();
      fsb := new DLList();
      new;
      hide Linked, Partition;
      ghost var s := [];
      EmptyList();
      for i := 0 to SBUFFERS
        invariant |s| == i && (forall k :: 0 <= k < i ==> s[k] == k) && fsb.Holds(links, s)
        invariant asb.first == None && asb.last == None && fresh(links) && fresh(asb) && fresh(fsb) && asb != fsb
      {
        fsb.Link(links, i, s);
        s := s + [i];
      }
      EmptyList();
      lists := Opened();
      assert s == lists.free;
      OpenedPartition();
    }

    /** `eel_salloc`. The result stands for the address of buffer `b`. */
    method Salloc() returns (b: Node)
      requires Valid()
      modifies this, links, asb, fsb
      ensures Valid() && (lists, b) == Alloc(old(lists))
    {
      hide Linked, Partition, Chained, At, Without;
      AllocPartition(lists);
      EndsOf(asb.first, asb.last, links.next, links.prev, lists.used);
      EndsOf(fsb.first, fsb.last, links.next, links.prev, lists.free);
      var sb := fsb.last;
      if sb.Some? {
        b := sb.value;
        TakeFree(b);
      } else {
        b := asb.first.value;
        Steal(b);
      }
      lists := Alloc(lists).0;
    }

    /** The last free buffer becomes the last allocated one. */
    method TakeFree(b: Node)
      requires Valid() && lists.free != [] && b == lists.free[|lists.free| - 1]
      modifies links, asb, fsb
      ensures asb.Holds(links, lists.used + [b]) && fsb.Holds(links, lists.free[..|lists.free| - 1])
    {
      hide Linked, Partition, Chained, At, Without;
      PartitionParts(lists);
      ghost var a, f := lists.used, lists.free;
      WithoutLast(f);
      ghost var next0, prev0 := links.next, links.prev;
      fsb.Unlink(links, b, f);
      ListKept(asb.first, asb.last, next0, prev0, links.next, links.prev, a);
      next0, prev0 := links.next, links.prev;
      asb.Link(links, b, a);
      ListKept(fsb.first, fsb.last, next0, prev0, links.next, links.prev, f[..|f| - 1]);
    }

    /** The first allocated buffer becomes the last one. */
    method Steal(b: Node)
      requires Valid() && lists.free == [] && lists.used != [] && b == lists.used[0]
      modifies links, asb, fsb
      ensures asb.Holds(links, lists.used[1..] + [b]) && fsb.Holds(links, [])
    {
      hide Linked, Partition, Chained, At, Without;
      PartitionParts(lists);
      ghost var a, f := lists.used, lists.free;
      WithoutFirst(a);
      ghost var next0, prev0 := links.next, links.prev;
      asb.Unlink(links, b, a);
      asb.Link(links, b, a[1..]);
      ListKept(fsb.first, fsb.last, next0, prev0, links.next, links.prev, f);
    }

    /** The list heads and links hold these two lists. */
    ghost predicate Holding(l: Lists)
      reads links, asb, fsb
    {
      asb.Holds(links, l.used) && fsb.Holds(links, l.free)
    }

    /** `eel_sfree`. `s` is the address, counted from the start of the pool; what is not the
        address of a buffer is left alone. The links hold two lists afterwards if and only if the
        buffer was one that may be freed. */
    method Sfree(s: int)
      requires Valid()
      modifies this, links, asb, fsb
      ensures !IsBuffer(s) ==> Valid() && lists == old(lists)
      ensures IsBuffer(s) && Harmless(old(lists), s / SBUFFER_BYTES) ==>
                Valid() && lists == Free(old(lists), s / SBUFFER_BYTES)
      ensures IsBuffer(s) && !Harmless(old(lists), s / SBUFFER_BYTES) ==> forall l :: !Holding(l)
    {
      if s < 0 {
        return;
      }
      if s >= SBUFFER_BYTES * SBUFFERS {
        return;
      }
      if s % SBUFFER_BYTES != 0 {
        return;
      }
      MoveToFree(s / SBUFFER_BYTES);
    }

    method MoveToFree(b: Node)
      requires Valid() && b < SBUFFERS
      modifies this, links, asb, fsb
      ensures Harmless(old(lists), b) ==> Valid() && lists == Free(old(lists), b)
      ensures !Harmless(old(lists), b) ==> forall l :: !Holding(l)
    {
      hide Linked, Partition, Without, Chained, At;
      ghost var a, f := lists.used, lists.free;
      OneOfTwo(lists, b);
      FreePartition(lists, b);
      ghost var s := if b in a then a else f;
      EndsOf(asb.first, asb.last, links.next, links.prev, a);
      EndsOf(fsb.first, fsb.last, links.next, links.prev, f);
      ChainOf(fsb.first, fsb.last, links.next, links.prev, f);
      ghost var next0, prev0 := links.next, links.prev;
      asb.Unlink(links, b, s);
      if b in a {
        ListKept(fsb.first, fsb.last, next0, prev0, links.next, links.prev, f);
      } else if Harmless(lists, b) {
        ListKept(asb.first, asb.last, next0, prev0, links.next, links.prev, a);
        InsideOf(f, b, fsb.first, fsb.last, links.next, links.prev);
      }
      next0, prev0 := links.next, links.prev;
      fsb.Link(links, b, Without(f, b));
      if Harmless(lists, b) {
        ListKept(asb.first, asb.last, next0, prev0, links.next, links.prev, Without(a, b));
        lists := Free(lists, b);
      } else {
        NoList(fsb.first, fsb.last, links.next, links.prev, b);
      }
    }
  }

  /** Addresses of buffers. */
  predicate IsBuffer(s: int) {
    0 <= s < SBUFFERS * SBUFFER_BYTES && s % SBUFFER_BYTES == 0
  }

  lemma OneOfTwo(p: Lists, b: Node)
    requires Partition(p) && b < SBUFFERS
    ensures b in p.used || b in p.free
  {
    var s := p.used + p.free;
    AllInRange(s, SBUFFERS, b);
    var i := Position(s, b);
    if i < |p.used| { assert p.used[i] == b; } else { assert p.free[i - |p.used|] == b; }
  }

  /** As many different numbers below `n` as there are: none is missing. */
  lemma {:induction false} AllInRange(s: seq<Node>, n: nat, b: Node)
    requires Distinct(s) && |s| == n && (forall i :: 0 <= i < |s| ==> s[i] < n) && b < n
    ensures b in s
    decreases n, 1
  {
    if n - 1 !in s {
      OneTooMany(s, n);
    } else if b != n - 1 {
      var k := Position(s, n - 1);
      DistinctWithout(s, k);
      AllInRange(s[..k] + s[k + 1..], n - 1, b);
    }
  }

  lemma {:induction false} OneTooMany(s: seq<Node>, n: nat)
    requires |s| == n > 0 && forall i :: 0 <= i < |s| ==> s[i] < n - 1
    ensures !Distinct(s)
    decreases n, 0
  {
    var r := s[..n - 1];
    if Distinct(r) {
      AllInRange(r, n - 1, s[n - 1]);
      var j := Position(r, s[n - 1]);
      assert s[j] == s[n - 1];
    }
  }

  /** The ends of a list stay when an inner node is taken out. */
  lemma InsideOf(f: seq<Node>, b: Node, first: Ptr, last: Ptr, next: map<Node, Ptr>, prev: map<Node, Ptr>)
    requires Distinct(f) && b in f && b != f[0] && b != f[|f| - 1] && Chained(next, prev, Without(f, b))
    requires first == Some(f[0]) && last == Some(f[|f| - 1])
    ensures Linked(first, last, next, prev, Without(f, b))
  {
    var k := Position(f, b);
    WithoutAt(f, k);
  }

  /** A list whose last node comes after itself, or whose first node is the last one and comes after
      another one, is no list. */
  lemma NoList(first: Ptr, last: Ptr, next: map<Node, Ptr>, prev: map<Node, Ptr>, b: Node)
    requires last == Some(b) && b in prev && prev[b].Some? && (first == Some(b) || prev[b] == Some(b))
    ensures forall s :: !Linked(first, last, next, prev, s)
  {
  }

  lemma EmptyList()
    ensures forall next: map<Node, Ptr>, prev: map<Node, Ptr> :: Linked(None, None, next, prev, [])
  {
  }

  lemma OpenedPartition()
    ensures Partition(Opened())
  {
    var p := Opened();
    assert p.used + p.free == p.free;
  }

  lemma EndsOf(first: Ptr, last: Ptr, next: map<Node, Ptr>, prev: map<Node, Ptr>, s: seq<Node>)
    requires Linked(first, last, next, prev, s)
    ensures first == (if s == [] then None else Some(s[0])) && last == (if s == [] then None else Some(s[|s| - 1]))
  {
  }

  lemma WithoutLast(s: seq<Node>)
    requires Distinct(s) && s != []
    ensures Without(s, s[|s| - 1]) == s[..|s| - 1]
  {
    WithoutAt(s, |s| - 1);
  }

  lemma WithoutFirst(s: seq<Node>)
    requires Distinct(s) && s != []
    ensures Without(s, s[0]) == s[1..]
  {
    WithoutAt(s, 0);
  }

  /** What a partition says about the two lists. */
  lemma PartitionParts(p: Lists)
    requires Partition(p)
    ensures Distinct(p.used) && Distinct(p.free)
    ensures forall x :: x in p.used ==> x !in p.free
    ensures forall x :: x in p.used || x in p.free ==> x < SBUFFERS
  {
    var s := p.used + p.free;
    forall i, j | 0 <= i < |p.used| && 0 <= j < |p.free| ensures p.used[i] != p.free[j] {
      assert s[i] == p.used[i] && s[|p.used| + j] == p.free[j];
    }
    forall i, j | 0 <= i < j < |p.free| ensures p.free[i] != p.free[j] {
      assert s[|p.used| + i] == p.free[i] && s[|p.used| + j] == p.free[j];
    }
    forall i, j | 0 <= i < j < |p.used| ensures p.used[i] != p.used[j] {
      assert s[i] == p.used[i] && s[j] == p.used[j];
    }
    forall x | x in p.used || x in p.free ensures x < SBUFFERS {
      assert x in s;
      var i := Position(s, x);
    }
  }

  lemma AllocPartition(p: Lists)
    requires Partition(p)
    ensures |p.used| + |p.free| == SBUFFERS && Partition(Alloc(p).0)
    ensures Distinct(p.used) && Distinct(p.free) && forall x :: x in p.used ==> x !in p.free
  {
    PartitionParts(p);
    var r, b := Alloc(p).0, Alloc(p).1;
    var s, s' := p.used + p.free, r.used + r.free;
    var n := |p.used|;
    // Only the order of the buffers changes.
    if p.free != [] {
      forall i | 0 <= i < |s'| ensures s'[i] == s[if i < n then i else if i == n then |s| - 1 else i - 1] {}
    } else {
      forall i | 0 <= i < |s'| ensures s'[i] == s[if i < n - 1 then i + 1 else 0] {}
    }
  }

  lemma FreePartition(p: Lists, b: Node)
    requires Partition(p) && (b in p.used || b in p.free)
    ensures Partition(Free(p, b))
    ensures Distinct(p.used) && Distinct(p.free) && forall x :: x in p.free ==> x !in p.used
  {
    hide Distinct, Partition, Without;
    PartitionParts(p);
    var u, f := p.used, p.free;
    if b in u {
      var k := Position(u, b);
      WithoutAt(u, k);
      CutUsed(u, f, k);
      Rearranged(p, Free(p, b), k);
    } else {
      var j := Position(f, b);
      WithoutAt(f, j);
      CutFree(u, f, j);
      Rearranged(p, Free(p, b), |u| + j);
    }
  }

  lemma Rearranged(p: Lists, r: Lists, k: nat)
    requires Partition(p) && k < |p.used + p.free|
    requires var s := p.used + p.free; r.used + r.free == s[..k] + s[k + 1..] + [s[k]]
    ensures Partition(r)
  {
    hide Distinct;
    var s := p.used + p.free;
    MovedLast(s, k);
    var s' := r.used + r.free;
    assert |s'| == |r.used| + |r.free|;
    forall i | 0 <= i < |s'| ensures s'[i] < SBUFFERS { assert s'[i] in s; }
  }

  lemma CutUsed(u: seq<Node>, f: seq<Node>, k: nat)
    requires k < |u|
    ensures (u + f)[k] == u[k] && u[..k] + u[k + 1..] + (f + [u[k]]) == (u + f)[..k] + (u + f)[k + 1..] + [(u + f)[k]]
  {
    assert (u + f)[..k] == u[..k] && (u + f)[k + 1..] == u[k + 1..] + f;
  }

  lemma CutFree(u: seq<Node>, f: seq<Node>, j: nat)
    requires j < |f|
    ensures var k := |u| + j;
      (u + f)[k] == f[j] && u + (f[..j] + f[j + 1..] + [f[j]]) == (u + f)[..k] + (u + f)[k + 1..] + [(u + f)[k]]
  {
    var k := |u| + j;
    assert (u + f)[..k] == u + f[..j] && (u + f)[k + 1..] == f[j + 1..];
  }

  /** One node goes to the end. */
  lemma MovedLast(s: seq<Node>, k: nat)
    requires Distinct(s) && k < |s|
    ensures var r := s[..k] + s[k + 1..] + [s[k]];
      |r| == |s| && Distinct(r) && forall x :: x in r ==> x in s
  {
    var r := s[..k] + s[k + 1..] + [s[k]];
    forall i | 0 <= i < |r| ensures r[i] == s[if i < k then i else if i < |s| - 1 then i + 1 else k] {}
  }

  // ---------------------------------------------------------------------------------------
  // How long a buffer lives
  // ---------------------------------------------------------------------------------------

  datatype Op = DoAlloc | DoFree(b: Node)

  predicate CanDo(p: Lists, op: Op) {
    |p.used| + |p.free| == SBUFFERS && (op.DoFree? ==> Harmless(p, op.b))
  }

  function Do(p: Lists, op: Op): Lists
    requires CanDo(p, op)
  {
    match op
    case DoAlloc => Alloc(p).0
    case DoFree(b) => Free(p, b)
  }

  ghost predicate CanRun(p: Lists, run: seq<Op>)
    decreases |run|
  {
    run == [] || (CanDo(p, run[0]) && CanRun(Do(p, run[0]), run[1..]))
  }

  /** The buffers that the allocations of the run get. */
  function HandedOut(p: Lists, run: seq<Op>): seq<Node>
    requires CanRun(p, run)
    decreases |run|
  {
    if run == [] then []
    else (if run[0].DoAlloc? then [Alloc(p).1] else []) + HandedOut(Do(p, run[0]), run[1..])
  }

  function After(p: Lists, run: seq<Op>): Lists
    requires CanRun(p, run)
    decreases |run|
  {
    if run == [] then p else After(Do(p, run[0]), run[1..])
  }

  /** In every state that can be reached, each buffer is in one of the two lists. */
  lemma {:induction false} AlwaysPartition(p: Lists, run: seq<Op>)
    requires Partition(p) && CanRun(p, run)
    ensures Partition(After(p, run))
    decreases |run|
  {
    hide Partition, Alloc, Free;
    if run != [] {
      match run[0]
      case DoAlloc => AllocPartition(p); AlwaysPartition(Alloc(p).0, run[1..]);
      case DoFree(b) => FreePartition(p, b); AlwaysPartition(Free(p, b), run[1..]);
    }
  }

  /** How many allocations there will be before used buffer number `k` is taken back, if nothing
      is freed. */
  function Left(p: Lists, k: nat): int {
    SBUFFERS - |p.used| + k
  }

  lemma AllocMoves(p: Lists, k: nat) returns (k': nat)
    requires Partition(p) && k < |p.used| && !(p.free == [] && k == 0)
    ensures Partition(Alloc(p).0) && Alloc(p).1 != p.used[k]
    ensures k' < |Alloc(p).0.used| && Alloc(p).0.used[k'] == p.used[k] && Left(Alloc(p).0, k') == Left(p, k) - 1
  {
    PartitionParts(p);
    AllocPartition(p);
    k' := if p.free == [] then k - 1 else k;
    assert p.used[k] in p.used;
  }

  lemma FreeMoves(p: Lists, b: Node, k: nat) returns (k': nat)
    requires Partition(p) && k < |p.used| && (b in p.used || b in p.free) && b != p.used[k]
    ensures Partition(Free(p, b))
    ensures k' < |Free(p, b).used| && Free(p, b).used[k'] == p.used[k] && Left(Free(p, b), k') >= Left(p, k)
  {
    hide Partition;
    PartitionParts(p);
    FreePartition(p, b);
    k' := k;
    if b in p.used {
      var j := Position(p.used, b);
      WithoutAt(p.used, j);
      k' := if j < k then k - 1 else k;
    }
  }

  /** A buffer with `n` buffers allocated after it is not handed out before `15 - n` more
      allocations. */
  lemma {:induction false} NotBefore(p: Lists, run: seq<Op>, k: nat)
    requires Partition(p) && CanRun(p, run) && k < |p.used|
    requires DoFree(p.used[k]) !in run
    ensures forall i :: 0 <= i < |HandedOut(p, run)| && i < Left(p, k) ==> HandedOut(p, run)[i] != p.used[k]
    decreases |run|
  {
    hide Partition, Alloc, Free;
    if run != [] {
      var rest := run[1..];
      match run[0]
      case DoAlloc =>
        if p.free != [] || k > 0 {
          var k' := AllocMoves(p, k);
          NotBefore(Alloc(p).0, rest, k');
          assert HandedOut(p, run) == [Alloc(p).1] + HandedOut(Alloc(p).0, rest);
        } else {
          AllocPartition(p);
        }
      case DoFree(x) =>
        var k' := FreeMoves(p, x, k);
        NotBefore(Free(p, x), rest, k');
        assert HandedOut(p, run) == [] + HandedOut(Free(p, x), rest);
    }
  }

  /** After a buffer has been handed out, at least fifteen other allocations happen before it is
      handed out again, unless it is freed, whatever else is freed in between. */
  lemma FifteenOthersFirst(before: seq<Op>, run: seq<Op>, i: nat)
    requires CanRun(Opened(), before)
    requires var p := After(Opened(), before);
      CanDo(p, DoAlloc) && CanRun(Alloc(p).0, run) && DoFree(Alloc(p).1) !in run
    requires var (p, b) := Alloc(After(Opened(), before)); i < |HandedOut(p, run)| && HandedOut(p, run)[i] == b
    ensures i >= 15
  {
    hide CanRun, HandedOut, After, Partition;
    OpenedPartition();
    AlwaysPartition(Opened(), before);
    var p := After(Opened(), before);
    AllocPartition(p);
    var p' := Alloc(p).0;
    assert p'.used[|p'.used| - 1] == Alloc(p).1;
    NotBefore(p', run, |p'.used| - 1);
  }

  // ---------------------------------------------------------------------------------------
  // Which buffer is handed out
  // ---------------------------------------------------------------------------------------

  /** When each buffer was last allocated or freed; `t` is the time now, and each operation takes one. */
  function Stamps(p: Lists, run: seq<Op>, stamps: map<Node, int>, t: int): map<Node, int>
    requires CanRun(p, run)
    decreases |run|
  {
    if run == [] then stamps
    else
      var b := if run[0].DoAlloc? then Alloc(p).1 else run[0].b;
      Stamps(Do(p, run[0]), run[1..], stamps[b := t], t + 1)
  }

  /** A new pool has its buffers in the order of their numbers. */
  function NewStamps(): map<Node, int> {
    map b | b in Opened().free :: b - SBUFFERS
  }

  ghost predicate InOrder(s: seq<Node>, stamps: map<Node, int>, t: int) {
    && (forall i :: 0 <= i < |s| ==> s[i] in stamps && stamps[s[i]] < t)
    && (forall i, j :: 0 <= i < j < |s| ==> stamps[s[i]] < stamps[s[j]])
  }

  lemma Restamped(s: seq<Node>, stamps: map<Node, int>, t: int, b: Node)
    requires InOrder(s, stamps, t) && b !in s
    ensures InOrder(s, stamps[b := t], t + 1) && InOrder(s + [b], stamps[b := t], t + 1)
  {
    assert forall i :: 0 <= i < |s| ==> s[i] in s;
  }

  lemma PartInOrder(s: seq<Node>, stamps: map<Node, int>, t: int, k: nat)
    requires InOrder(s, stamps, t) && k < |s| && Distinct(s)
    ensures InOrder(s[..k] + s[k + 1..], stamps, t) && s[k] !in s[..k] + s[k + 1..]
  {
    var r := s[..k] + s[k + 1..];
    forall i | 0 <= i < |r| ensures r[i] == s[if i < k then i else i + 1] {}
  }

  lemma AllocInOrder(p: Lists, stamps: map<Node, int>, t: int)
    requires Partition(p) && InOrder(p.used, stamps, t) && InOrder(p.free, stamps, t)
    ensures var (p', b) := Alloc(p);
      && InOrder(p'.used, stamps[b := t], t + 1) && InOrder(p'.free, stamps[b := t], t + 1) && Partition(p')
  {
    hide Partition, InOrder;
    AllocPartition(p);
    if p.free != [] {
      var k := |p.free| - 1;
      PartInOrder(p.free, stamps, t, k);
      assert p.free[..k] + p.free[k + 1..] == p.free[..k];
      Restamped(p.free[..k], stamps, t, p.free[k]);
      assert p.free[k] !in p.used;
      Restamped(p.used, stamps, t, p.free[k]);
    } else {
      PartInOrder(p.used, stamps, t, 0);
      assert p.used[..0] + p.used[1..] == p.used[1..];
      Restamped(p.used[1..], stamps, t, p.used[0]);
      Restamped([], stamps, t, p.used[0]) by { NothingInOrder(stamps, t); }
    }
  }

  lemma NothingInOrder(stamps: map<Node, int>, t: int)
    ensures InOrder([], stamps, t)
  {
  }

  lemma {:induction false} WithoutNone(s: seq<Node>, b: Node)
    requires b !in s
    ensures Without(s, b) == s
  {
    if s != [] { WithoutNone(s[1..], b); }
  }

  lemma RestInOrder(s: seq<Node>, stamps: map<Node, int>, t: int, b: Node)
    requires InOrder(s, stamps, t) && Distinct(s)
    ensures InOrder(Without(s, b), stamps, t) && b !in Without(s, b)
  {
    hide InOrder, Distinct;
    if b in s {
      var k := Position(s, b);
      WithoutAt(s, k);
      PartInOrder(s, stamps, t, k);
    } else {
      WithoutNone(s, b);
    }
  }

  lemma FreeInOrder(p: Lists, b: Node, stamps: map<Node, int>, t: int)
    requires Partition(p) && InOrder(p.used, stamps, t) && InOrder(p.free, stamps, t) && (b in p.used || b in p.free)
    ensures var p' := Free(p, b);
      && InOrder(p'.used, stamps[b := t], t + 1) && InOrder(p'.free, stamps[b := t], t + 1) && Partition(p')
  {
    hide Partition, InOrder, Distinct, Without;
    FreePartition(p, b);
    RestInOrder(p.used, stamps, t, b);
    RestInOrder(p.free, stamps, t, b);
    Restamped(Without(p.used, b), stamps, t, b);
    Restamped(Without(p.free, b), stamps, t, b);
  }

  lemma {:induction false} RunInOrder(p: Lists, run: seq<Op>, stamps: map<Node, int>, t: int)
    requires CanRun(p, run) && Partition(p) && InOrder(p.used, stamps, t) && InOrder(p.free, stamps, t)
    ensures var p' := After(p, run);
      && InOrder(p'.used, Stamps(p, run, stamps, t), t + |run|)
      && InOrder(p'.free, Stamps(p, run, stamps, t), t + |run|) && Partition(p')
    decreases |run|
  {
    hide Partition, InOrder, Alloc, Free;
    if run != [] {
      match run[0]
      case DoAlloc =>
        AllocInOrder(p, stamps, t);
        RunInOrder(Alloc(p).0, run[1..], stamps[Alloc(p).1 := t], t + 1);
      case DoFree(b) =>
        FreeInOrder(p, b, stamps, t);
        RunInOrder(Free(p, b), run[1..], stamps[b := t], t + 1);
    }
  }

  /** Whatever happened before: the buffer that is handed out next is the one that was freed last, or, if
      none is free, the one whose last allocation is longest ago. */
  lemma NextOut(run: seq<Op>)
    requires CanRun(Opened(), run) && CanDo(After(Opened(), run), DoAlloc)
    ensures var p, stamps := After(Opened(), run), Stamps(Opened(), run, NewStamps(), 0); var b := Alloc(p).1;
      && (p.free != [] ==> b in p.free && forall x :: x in p.free && x != b ==>
            x in stamps && b in stamps && stamps[x] < stamps[b])
      && (p.free == [] ==> b in p.used && forall x :: x in p.used && x != b ==>
            x in stamps && b in stamps && stamps[b] < stamps[x])
  {
    hide CanRun, After, Stamps, Partition;
    OpenedPartition();
    RunInOrder(Opened(), run, NewStamps(), 0);
  }
}
