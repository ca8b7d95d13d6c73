/** Cleaning up after calls, and leaving any number of them at once. */
module LeavingCalls {
  import opened Values
  import opened ObjectStore
  import opened CallStack
  import opened Frames
  import opened MachineState
  import opened CallLinks
  import opened Instructions

  /** `a` is `b` up to cells from `b`'s stack pointer up, which mean nothing to it. */
  ghost predicate SameBelow(a: Stack, b: Stack) {
    && a.base == b.base && a.sp == b.sp && a.sbase == b.sbase && a.pc == b.pc
    && |a.heap| >= b.sp && |b.heap| >= b.sp
    && forall i :: 0 <= i < b.sp ==> a.heap[i] == b.heap[i]
  }

  /** The call chain as it was `n` calls ago. */
  ghost function Caller(k: Stack, n: nat): Stack
    decreases n
  {
    if n == 0 then k else if k.base > 0 && k.HasFrame() then Caller(k.Below(), n - 1) else k
  }

  lemma FrameBelowSp(k: Stack)
    requires ChainOk(k) && k.base > 0
    ensures k.HasFrame() && k.Cf().rSp + CFREGS < k.base && k.Cf().cleantab == k.Cf().rSp
    ensures k.base <= k.sbase <= k.sp <= |k.heap|
    ensures k.Cf().f.native ==> k.Vars() == [] && k.Cf().limbo == []
  {
  }

  /** Cells outside the area between a call's arguments and its registers are the same. */
  ghost predicate SameOutside(a: Stack, b: Stack)
    requires b.HasFrame()
  {
    && |a.heap| == |b.heap| && (a.base, a.sp, a.sbase, a.pc) == (b.base, b.sp, b.sbase, b.pc)
    && (forall i :: 0 <= i < b.Cf().rSp && i < |b.heap| ==> a.heap[i] == b.heap[i])
    && (forall i :: b.base <= i < |b.heap| ==> a.heap[i] == b.heap[i])
  }

  lemma CutCleanOutside(k: Stack, downto: nat)
    requires ChainOk(k) && k.base > 0 && k.HasFrame() && downto <= |k.Vars()|
    ensures SameOutside(CutClean(k, downto), k)
  {
    FrameBelowSp(k);
  }

  lemma SetLimboOutside(k: Stack, limbo: seq<Obj>)
    requires ChainOk(k) && k.base > 0 && k.HasFrame()
    ensures SameOutside(SetLimbo(k, limbo), k)
  {
    FrameBelowSp(k);
  }

  lemma SameOutsideTrans(a: Stack, b: Stack, c: Stack)
    requires b.HasFrame() && c.HasFrame() && b.Cf().rSp == c.Cf().rSp
    requires SameOutside(a, b) && SameOutside(b, c)
    ensures SameOutside(a, c)
  {
  }

  /** `clean` of all variables followed by `limbo_clean`. */
  lemma CleanFrameOk(m: Machine, hand: seq<Value>)
    requires InvWith(m, hand) && !InNative(m.k)
    ensures var m' := CleanLimbo(CleanVars(m, 0));
      && InvWith(m', hand) && SameRest(m, m')
      && m'.k.HasFrame() && m'.k.Vars() == [] && m'.k.Cf() == m.k.Cf().(limbo := [])
      && Calls(m'.k) == Calls(m.k) && SameOutside(m'.k, m.k)
  {
    hide ChainOk, Accounted, LimboOk, CallsOk, Calls, OwnedValues, LimboObjects, Count, Release;
    var m1 := CleanVars(m, 0);
    CleanVarsOk(m, hand, 0);
    CutCleanOutside(m.k, 0);
    CleanLimboOk(m1, hand);
    SetLimboOutside(m1.k, []);
    SameOutsideTrans(CleanLimbo(m1).k, m1.k, m.k);
  }

  lemma OutsideBelow(k: Stack, k': Stack)
    requires ChainOk(k) && k.base > 0 && k.HasFrame() && SameOutside(k', k)
    requires k'.HasFrame() && k'.Cf() == k.Cf().(limbo := [])
    ensures SameBelow(k'.Below(), k.Below())
    ensures SameBelow(k'.(sp := k.sbase).Below(), k.Below())
  {
    FrameBelowSp(k);
  }

  /** `m'` is `m` after cleaning up after the running call: that call owns nothing any more,
      and its callers are as before. */
  ghost predicate CallCleaned(m: Machine, m': Machine) {
    && m.k.HasFrame() && m'.k.HasFrame() && m'.k.base == m.k.base
    && m'.k.sp == m'.k.sbase && m'.k.Vars() == [] && m'.k.Cf() == m.k.Cf().(limbo := [])
    && SameBelow(m'.k.Below(), m.k.Below())
    && SameRest(m, m')
  }

  /** Nothing else of the machine was affected, except that objects may have been destroyed. */
  ghost predicate SameRest(m: Machine, m': Machine) {
    && Within(m'.st, m.st)
    && m'.exception == m.exception && m'.statics == m.statics && m'.host == m.host && m'.next == m.next
  }

  lemma CleanNativeOk(m: Machine, hand: seq<Value>)
    requires InvWith(m, hand) && m.k.base > 0 && InNative(m.k)
    ensures InvWith(ClearArgs(m), hand) && CallCleaned(m, ClearArgs(m))
    ensures Calls(ClearArgs(m).k) == Calls(m.k)
  {
    hide ChainOk, Accounted, LimboOk, CallsOk, Calls;
    FrameBelowSp(m.k);
    ClearArgsOk'(m, hand);
    var m' := ClearArgs(m);
    assert m'.k == m.k.(sp := m.k.sbase);
    assert m'.k.HasFrame() && m'.k.Cf() == m.k.Cf() && m'.k.Below() == m.k.Below();
    assert m'.k.Vars() == m.k.Vars();
  }

  lemma CleanEelOk(m: Machine, hand: seq<Value>)
    requires InvWith(m, hand) && !InNative(m.k)
    ensures var m' := ClearArgs(CleanLimbo(CleanVars(m, 0)));
      InvWith(m', hand) && CallCleaned(m, m') && Calls(m'.k) == Calls(m.k)
  {
    hide ChainOk, Accounted, LimboOk, CallsOk, Calls, OwnedValues, LimboObjects, Count, Release, CutClean, SetLimbo,
         CleanVars, CleanLimbo;
    FrameBelowSp(m.k);
    CleanFrameOk(m, hand);
    var m1 := CleanLimbo(CleanVars(m, 0));
    ClearArgsOk'(m1, hand);
    OutsideBelow(m.k, m1.k);
    var m' := ClearArgs(m1);
    assert m'.k.Vars() == m1.k.Vars() && m'.k.Cf() == m1.k.Cf();
    assert CallCleaned(m, m');
  }

  lemma CleanCallOk(m: Machine, hand: seq<Value>)
    requires InvWith(m, hand) && m.k.base > 0
    ensures InvWith(CleanCall(m), hand) && CallCleaned(m, CleanCall(m))
    ensures Calls(CleanCall(m).k) == Calls(m.k)
  {
    if InNative(m.k) { CleanNativeOk(m, hand); } else { CleanEelOk(m, hand); }
  }

  /** One round of `unwind`. */
  lemma LeaveCallOk(m: Machine, hand: seq<Value>)
    requires InvWith(m, hand) && m.k.base > 0
    ensures m.k.HasFrame() && Calls(m.k) != []
    ensures var m' := Leave(CleanCall(m));
      && InvWith(m', hand) && SameRest(m, m')
      && SameBelow(m'.k, m.k.Below()) && Calls(m'.k) == Calls(m.k)[1..]
  {
    CleanCallOk(m, hand);
    LeaveOk(CleanCall(m), hand);
  }
}
