/** Exception lists that several threads register at the same time (e_exceptions.c). The search
    for a block that is there already runs without the mutex, and each of its rounds is a step of
    its own here; only the installation of a new block is one step. */
module ConcurrentRegistration {
  import opened ExceptionRegistry

  /** `i` is the block that the search looks at next. */
  datatype Thread = Searching(all: seq<Def>, i: nat) | Installing(all: seq<Def>)

  datatype Registered = Registered(thread: nat, all: seq<Def>, base: int)

  /** `threads` are those inside `eel_x_register`; `done` are the offsets handed out so far. */
  datatype System = System(bs: Blocks, threads: map<nat, Thread>, done: seq<Registered>)

  datatype Event = Start(t: nat, all: seq<Def>) | Look(t: nat) | Finish(t: nat)

  function Without(threads: map<nat, Thread>, t: nat): map<nat, Thread> {
    map u | u in threads && u != t :: threads[u]
  }

  /** A list that passes the checks at the beginning. */
  predicate Accepted(all: seq<Def>) {
    Verdict(all) == 0 && Listed(all) != [] && MaxCode(Listed(all)) - MinCode(Listed(all)) <= EXCEPTION_MAX
  }

  function Handed(s: System, t: nat, all: seq<Def>, base: int): System {
    s.(threads := Without(s.threads, t), done := s.done + [Registered(t, all, base)])
  }

  /** One round of `already_registered`. A faulting comparison ends the thread. */
  function LookAt(s: System, t: nat, all: seq<Def>, i: nat): System {
    var defs := Listed(all);
    if i >= |s.bs| || defs == [] then s.(threads := s.threads[t := Installing(all)])
    else if s.bs[i].None? || !Fits(s.bs[i].value, i, MinCode(defs), MaxCode(defs)) then
      s.(threads := s.threads[t := Searching(all, i + 1)])
    else
      match Compare(s.bs[i].value, defs, 0)
      case Same => Handed(s, t, all, s.bs[i].value.base)
      case Faults => s.(threads := Without(s.threads, t))
      case Differs => s.(threads := s.threads[t := Searching(all, i + 1)])
  }

  function Happens(s: System, e: Event): System {
    match e
    case Start(t, all) =>
      if t in s.threads || !Accepted(all) then s else s.(threads := s.threads[t := Searching(all, 1)])
    case Look(t) =>
      if t in s.threads && s.threads[t].Searching? then LookAt(s, t, s.threads[t].all, s.threads[t].i) else s
    case Finish(t) =>
      if t in s.threads && s.threads[t].Installing? && Listed(s.threads[t].all) != [] then
        var all := s.threads[t].all;
        var (bs, r) := Install(s.bs, Listed(all));
        var s' := s.(bs := bs, threads := Without(s.threads, t));
        if r.Base? then s'.(done := s.done + [Registered(t, all, r.base)]) else s'
      else s
  }

  function HappenAll(s: System, es: seq<Event>): System
    decreases |es|
  {
    if es == [] then s else HappenAll(Happens(s, es[0]), es[1..])
  }

  // ---------------------------------------------------------------------------------------
  // What every interleaving keeps
  // ---------------------------------------------------------------------------------------

  /** The offset is that of a block for this list. */
  ghost predicate HasBlock(bs: Blocks, d: Registered) {
    Good(Listed(d.all)) && exists i :: InBlock(bs, Listed(d.all), d.base, i)
  }

  ghost predicate SystemOk(s: System) {
    && Valid(s.bs)
    && (forall t :: t in s.threads ==> Accepted(s.threads[t].all))
    && (forall t :: t in s.threads && s.threads[t].Searching? ==> 1 <= s.threads[t].i)
    && (forall d :: d in s.done ==> HasBlock(s.bs, d))
  }

  lemma InstallOk(bs: Blocks, all: seq<Def>)
    requires Valid(bs) && Accepted(all)
    ensures var (bs', r) := Install(bs, Listed(all));
      && Valid(bs') && Extends(bs', bs) && Good(Listed(all))
      && (r.Base? ==> FirstFree(bs, 1) < |bs| && InBlock(bs', Listed(all), r.base, FirstFree(bs, 1)))
  {
    ListedGood(all);
    CodeRange(Listed(all), 0);
  }

  lemma BlockStays(bs: Blocks, bs': Blocks, d: Registered)
    requires HasBlock(bs, d) && Extends(bs', bs)
    ensures HasBlock(bs', d)
  {
    hide Listed, MinCode, MaxCode;
    var i :| InBlock(bs, Listed(d.all), d.base, i);
    assert InBlock(bs', Listed(d.all), d.base, i);
  }

  lemma HappensOk(s: System, e: Event)
    requires SystemOk(s)
    ensures SystemOk(Happens(s, e)) && Extends(Happens(s, e).bs, s.bs)
  {
    hide Install, Compare, MinCode, MaxCode, Valid, Verdict;
    match e
    case Start(t, all) =>
    case Look(t) =>
      if t in s.threads && s.threads[t].Searching? {
        var all, i := s.threads[t].all, s.threads[t].i;
        AcceptedGood(all);
        if i < |s.bs| && s.bs[i].Some? && Fits(s.bs[i].value, i, MinCode(Listed(all)), MaxCode(Listed(all))) {
          assert InBlock(s.bs, Listed(all), s.bs[i].value.base, i);
        }
      }
    case Finish(t) =>
      if t in s.threads && s.threads[t].Installing? {
        var all := s.threads[t].all;
        InstallOk(s.bs, all);
        var (bs, r) := Install(s.bs, Listed(all));
        forall d | d in s.done ensures HasBlock(bs, d) { BlockStays(s.bs, bs, d); }
      }
  }

  lemma AcceptedGood(all: seq<Def>)
    requires Accepted(all)
    ensures Good(Listed(all))
  {
    ListedGood(all);
  }

  lemma {:induction false} AllOk(s: System, es: seq<Event>)
    requires SystemOk(s)
    ensures SystemOk(HappenAll(s, es)) && Extends(HappenAll(s, es).bs, s.bs)
    decreases |es|
  {
    hide SystemOk, Happens;
    if es != [] {
      HappensOk(s, es[0]);
      AllOk(Happens(s, es[0]), es[1..]);
    }
  }

  /** However the threads are interleaved, two codes that were handed out are the same only if the
      offsets and the codes of the modules are the same. */
  lemma NeverCollide(core: seq<Entry>, es: seq<Event>, d1: Registered, d2: Registered, j: nat, k: nat)
    requires var s := HappenAll(System(OpenRegistry(core), map[], []), es);
      d1 in s.done && d2 in s.done
    requires j < |Listed(d1.all)| && k < |Listed(d2.all)|
    ensures var c1, c2 := Listed(d1.all)[j].code, Listed(d2.all)[k].code;
      d1.base + c1 == d2.base + c2 <==> d1.base == d2.base && c1 == c2
  {
    hide HappenAll, Listed, MinCode, MaxCode, Accepted;
    var s0 := System(OpenRegistry(core), map[], []);
    AllOk(s0, es);
    var s := HappenAll(s0, es);
    assert HasBlock(s.bs, d1) && HasBlock(s.bs, d2);
    var i1 :| InBlock(s.bs, Listed(d1.all), d1.base, i1);
    var i2 :| InBlock(s.bs, Listed(d2.all), d2.base, i2);
    var e1 := CodeEntry(s.bs, Listed(d1.all), d1.base, i1, j);
    var e2 := CodeEntry(s.bs, Listed(d2.all), d2.base, i2, k);
  }

  // ---------------------------------------------------------------------------------------
  // The same list again
  // ---------------------------------------------------------------------------------------

  /** Thread `t` is about to find that block `k` is the first one that has its list. */
  ghost predicate WillFind(s: System, t: nat, all: seq<Def>, k: nat) {
    && Listed(all) != [] && k < |s.bs| && (forall h :: 1 <= h <= k ==> s.bs[h].Some?)
    && t in s.threads && s.threads[t].Searching? && s.threads[t].all == all && s.threads[t].i <= k
    && AlreadyRegistered(s.bs, Listed(all), MinCode(Listed(all)), MaxCode(Listed(all)), s.threads[t].i) == Matched(k)
  }

  ghost predicate HasFound(s: System, t: nat, all: seq<Def>, k: nat) {
    k < |s.bs| && s.bs[k].Some? && Registered(t, all, s.bs[k].value.base) in s.done
  }

  lemma {:induction false} SearchStays(bs: Blocks, later: Blocks, defs: seq<Def>, min: int, max: int, i: nat, k: nat)
    requires Extends(later, bs) && k < |bs| && forall h :: i <= h <= k ==> bs[h].Some?
    requires AlreadyRegistered(bs, defs, min, max, i) == Matched(k)
    ensures AlreadyRegistered(later, defs, min, max, i) == Matched(k)
    decreases k - i
  {
    hide Compare;
    if i < k && AlreadyRegistered(bs, defs, min, max, i + 1) == Matched(k) {
      SearchStays(bs, later, defs, min, max, i + 1, k);
    }
  }

  lemma FindsIt(s: System, t: nat, all: seq<Def>, k: nat, e: Event)
    requires SystemOk(s) && (WillFind(s, t, all, k) || HasFound(s, t, all, k))
    ensures WillFind(Happens(s, e), t, all, k) || HasFound(Happens(s, e), t, all, k)
  {
    hide Install, Compare, MinCode, MaxCode, Valid, Accepted, Listed, HasBlock;
    HappensOk(s, e);
    var s' := Happens(s, e);
    if HasFound(s, t, all, k) {
      assert s'.bs[k] == s.bs[k];
      assert forall d :: d in s.done ==> d in s'.done;
    } else {
      var defs := Listed(all);
      SearchStays(s.bs, s'.bs, defs, MinCode(defs), MaxCode(defs), s.threads[t].i, k);
    }
  }

  lemma {:induction false} FindsInRun(s: System, t: nat, all: seq<Def>, k: nat, es: seq<Event>)
    requires SystemOk(s) && (WillFind(s, t, all, k) || HasFound(s, t, all, k))
    ensures var s' := HappenAll(s, es); WillFind(s', t, all, k) || HasFound(s', t, all, k)
    decreases |es|
  {
    hide SystemOk, Happens, WillFind, HasFound;
    if es != [] {
      HappensOk(s, es[0]);
      FindsIt(s, t, all, k, es[0]);
      FindsInRun(Happens(s, es[0]), t, all, k, es[1..]);
    }
  }

  /** A thread that starts to search when some block has its list gets the offset of the first such
      block, whatever the other threads do meanwhile: it is still on its way to it, or has got it. */
  lemma LaterGetFirst(s: System, t: nat, all: seq<Def>, k: nat, es: seq<Event>)
    requires SystemOk(s) && Accepted(all) && t !in s.threads
    requires AlreadyRegistered(s.bs, Listed(all), MinCode(Listed(all)), MaxCode(Listed(all)), 1) == Matched(k)
    ensures var s' := HappenAll(Happens(s, Start(t, all)), es);
      WillFind(s', t, all, k) || HasFound(s', t, all, k)
  {
    hide Compare, MinCode, MaxCode, Verdict, Listed, AlreadyRegistered, HasBlock, BlockOk;
    HappensOk(s, Start(t, all));
    FindsInRun(Happens(s, Start(t, all)), t, all, k, es);
  }

  /** A thread that installs a block gets an offset that nobody has for the same list. */
  lemma InstallIsFresh(s: System, t: nat, d: Registered)
    requires SystemOk(s) && t in s.threads && s.threads[t].Installing? && d in s.done
    requires Listed(d.all) == Listed(s.threads[t].all) && FirstFree(s.bs, 1) < |s.bs|
    ensures exists base :: Happens(s, Finish(t)).done == s.done + [Registered(t, s.threads[t].all, base)]
                           && base != d.base
  {
    hide Compare, MinCode, MaxCode, Filled, Verdict;
    var defs := Listed(d.all);
    assert HasBlock(s.bs, d);
    var i :| InBlock(s.bs, defs, d.base, i);
    var base := FirstFree(s.bs, 1) * BLOCK_SIZE - MinCode(defs);
    assert Install(s.bs, defs).1 == Base(base);
    assert Happens(s, Finish(t)).done == s.done + [Registered(t, s.threads[t].all, base)];
  }

  function Looks(t: nat, n: nat): seq<Event> {
    if n == 0 then [] else [Look(t)] + Looks(t, n - 1)
  }

  lemma {:induction false} HappenAppend(s: System, a: seq<Event>, b: seq<Event>)
    ensures HappenAll(s, a + b) == HappenAll(HappenAll(s, a), b)
    decreases |a|
  {
    hide Happens;
    if a == [] {
      assert a + b == b;
    } else {
      HappenAppend(Happens(s, a[0]), a[1..], b);
      assert (a + b)[1..] == a[1..] + b;
    }
  }

  /** A search that finds nothing, undisturbed. */
  lemma {:induction false} FindsNothing(s: System, t: nat, all: seq<Def>, i: nat)
    requires t in s.threads && s.threads[t] == Searching(all, i) && Accepted(all) && i <= |s.bs|
    requires AlreadyRegistered(s.bs, Listed(all), MinCode(Listed(all)), MaxCode(Listed(all)), i).NoMatch?
    ensures HappenAll(s, Looks(t, |s.bs| - i + 1)) == s.(threads := s.threads[t := Installing(all)])
    decreases |s.bs| - i
  {
    hide Compare, MinCode, MaxCode, Verdict, Listed;
    var looks, s1 := Looks(t, |s.bs| - i + 1), Happens(s, Look(t));
    assert looks[0] == Look(t) && looks[1..] == Looks(t, |s.bs| - i);
    if i < |s.bs| {
      FindsNothing(s1, t, all, i + 1);
      assert s1.threads[t := Installing(all)] == s.threads[t := Installing(all)];
    }
  }

  /** Two threads that search before either has installed a block get two offsets for the same list,
      whatever list that is. */
  lemma TwoOffsets(s: System, all: seq<Def>, t1: nat, t2: nat) returns (es: seq<Event>, base1: int, base2: int)
    requires SystemOk(s) && Accepted(all) && t1 != t2 && t1 !in s.threads && t2 !in s.threads
    requires AlreadyRegistered(s.bs, Listed(all), MinCode(Listed(all)), MaxCode(Listed(all)), 1).NoMatch?
    requires FirstFree(s.bs, 1) + 1 < |s.bs|
    ensures HappenAll(s, es).done == s.done + [Registered(t1, all, base1), Registered(t2, all, base2)]
    ensures base1 != base2
  {
    hide Compare, MinCode, MaxCode, Verdict, Listed, Filled, AlreadyRegistered, HasBlock, Valid, Without;
    var n := |s.bs|;
    var sa := s.(threads := s.threads[t1 := Searching(all, 1)][t2 := Searching(all, 1)]);
    var sb := sa.(threads := sa.threads[t1 := Installing(all)]);
    var sc := sb.(threads := sb.threads[t2 := Installing(all)]);
    var starts, ends := [Start(t1, all), Start(t2, all)], [Finish(t1), Finish(t2)];
    assert HappenAll(s, starts) == sa by { TwoHappen(s, starts); }
    FindsNothing(sa, t1, all, 1);
    FindsNothing(sb, t2, all, 1);
    HappenAppend(s, starts, Looks(t1, n));
    HappenAppend(s, starts + Looks(t1, n), Looks(t2, n));
    HappenAppend(s, starts + Looks(t1, n) + Looks(t2, n), ends);
    es := starts + Looks(t1, n) + Looks(t2, n) + ends;
    TwoHappen(sc, ends);
    base1, base2 := BothInstall(sc, t1, t2, all);
  }

  lemma TwoHappen(s: System, es: seq<Event>)
    requires |es| == 2
    ensures HappenAll(s, es) == Happens(Happens(s, es[0]), es[1])
  {
    hide Happens;
    assert es[1..][1..] == [];
    assert HappenAll(Happens(s, es[0]), es[1..]) == HappenAll(Happens(Happens(s, es[0]), es[1]), es[1..][1..]);
  }

  lemma BothInstall(s: System, t1: nat, t2: nat, all: seq<Def>) returns (base1: int, base2: int)
    requires Valid(s.bs) && Accepted(all) && t1 != t2 && t1 in s.threads && t2 in s.threads
    requires s.threads[t1] == Installing(all) == s.threads[t2] && FirstFree(s.bs, 1) + 1 < |s.bs|
    ensures Happens(Happens(s, Finish(t1)), Finish(t2)).done
         == s.done + [Registered(t1, all, base1), Registered(t2, all, base2)]
    ensures base1 != base2
  {
    hide Compare, MinCode, MaxCode, Verdict, Filled;
    var defs, f := Listed(all), FirstFree(s.bs, 1);
    base1, base2 := f * BLOCK_SIZE - MinCode(defs), (f + 1) * BLOCK_SIZE - MinCode(defs);
    var s1 := Happens(s, Finish(t1));
    assert s1.done == s.done + [Registered(t1, all, base1)];
    NextFree(s.bs, s1.bs, 1);
    assert FirstFree(s1.bs, 1) == f + 1;
  }

  /** The blocks fill up one after the other. */
  lemma {:induction false} NextFree(bs: Blocks, bs': Blocks, i: nat)
    requires Valid(bs) && 1 <= i && FirstFree(bs, i) + 1 < |bs| && |bs'| == |bs|
    requires bs'[FirstFree(bs, i)].Some? && forall h :: 0 <= h < |bs| && h != FirstFree(bs, i) ==> bs'[h] == bs[h]
    ensures FirstFree(bs', i) == FirstFree(bs, i) + 1
    decreases |bs| - i
  {
    hide BlockOk;
    if bs[i].Some? {
      NextFree(bs, bs', i + 1);
    } else {
      assert bs[i + 1].None?;
      assert FirstFree(bs', i) == FirstFree(bs', i + 1);
    }
  }
}
