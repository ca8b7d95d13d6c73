/** Returning from inside try blocks and catchers, compared with returning from the function
    itself once those blocks are gone. */
module BlockReturns {
  import opened Values
  import opened ObjectStore
  import opened CallStack
  import opened Frames
  import opened MachineState
  import opened Instructions
  import opened LeavingCalls
  import opened Unwinding
  import opened Safety
  import opened ExceptionFlow
  import opened Runs
  import opened CallTheorems
  import opened CutCalls
  import opened ExceptionTheorems

  // ---------------------------------------------------------------------------------------
  // What unwinding does not depend on
  // ---------------------------------------------------------------------------------------

  /** The last round of unwinding, taken on its own. */
  lemma {:induction false} UnwindOneMore(m: Machine, hand: seq<Value>, n: nat)
    requires InvWith(m, hand) && n < |Calls(m.k)|
    ensures Unwind(m, Caller(m.k, n + 1).base) == Leave(CleanCall(Unwind(m, Caller(m.k, n).base)))
    decreases n
  {
    hide ChainOk, Accounted, LimboOk, CallsOk, OwnedValues, LimboObjects, CleanCall, Leave, SameBelow;
    CallerBase(m.k, n + 1);
    CallerBase(m.k, n);
    LeaveCallOk(m, hand);
    var m1 := Leave(CleanCall(m));
    SameBelowBase(m1.k, m.k.Below());
    BelowOk(m.k);
    CallerSame(m1.k, m.k.Below(), n);
    SameBelowBase(Caller(m1.k, n), Caller(m.k.Below(), n));
    assert Caller(m.k, n + 1) == Caller(m.k.Below(), n);
    assert Unwind(m, Caller(m.k, n + 1).base) == Unwind(m1, Caller(m1.k, n).base);
    if n == 0 {
      assert Caller(m.k, 0) == m.k;
      assert Unwind(m1, m1.k.base) == m1;
    } else {
      CallerSame(m1.k, m.k.Below(), n - 1);
      SameBelowBase(Caller(m1.k, n - 1), Caller(m.k.Below(), n - 1));
      assert Caller(m.k, n) == Caller(m.k.Below(), n - 1);
      UnwindOneMore(m1, hand, n - 1);
      assert Unwind(m, Caller(m.k, n).base) == Unwind(m1, Caller(m1.k, n - 1).base);
    }
  }

  /** The program counter of a call does not matter when the call is left. */
  lemma CleanCallPc(m: Machine, pc: nat)
    requires !InNative(m.k) && ChainOk(m.k)
    ensures Leave(CleanCall(m.(k := m.k.(pc := pc)))) == Leave(CleanCall(m))
  {
    hide Release, LayoutOk, LinksOk, LayoutChain, LinkChain, VarValues, ArgValues;
    var m' := m.(k := m.k.(pc := pc));
    assert m'.k.HasFrame() && m'.k.Vars() == m.k.Vars() && m'.k.Cf() == m.k.Cf();
    FrameBelowSp(m.k);
    CutCleanOk(m.k, 0);
    CutCleanOutside(m.k, 0);
    var m1, m1' := CleanVars(m, 0), CleanVars(m', 0);
    assert m1' == m1.(k := m1.k.(pc := pc));
    SetLimboOutside(m1.k, []);
    var m2, m2' := CleanLimbo(m1), CleanLimbo(m1');
    assert m2' == m2.(k := m2.k.(pc := pc));
    assert ClearArgs(m2') == ClearArgs(m2).(k := ClearArgs(m2).k.(pc := pc));
    assert ClearArgs(m2).k.HasFrame();
  }

  lemma UnwindAdvanced(m: Machine, hand: seq<Value>, d: nat, n: nat)
    requires InvWith(m, hand) && !InNative(m.k) && 0 < n <= |Calls(m.k)|
    ensures Unwind(Advance(m, d), Caller(m.k, n).base) == Unwind(m, Caller(m.k, n).base)
  {
    hide ChainOk, Accounted, LimboOk, CallsOk, Calls, OwnedValues, LimboObjects, CleanCall, Leave;
    CallerBase(m.k, n);
    CleanCallPc(m, m.k.pc + d);
  }

  // ---------------------------------------------------------------------------------------
  // RETX
  // ---------------------------------------------------------------------------------------

  /** The call that RETX and RETXR return from, seen from `m`: `n` blocks further down. */
  ghost predicate InBlocks(m: Machine, n: nat) {
    && 0 < n < |Calls(m.k)|
    && !Calls(m.k)[n].cf.mark.InBlock()
    && (forall i :: 0 <= i < n ==> Calls(m.k)[i].cf.mark.InBlock())
    && Caller(m.k, n).sp == Caller(m.k, n).sbase
  }

  lemma {:induction false} FunctionFrameAt(k: Stack, n: nat)
    requires ChainOk(k) && k.base > 0 && n < |Calls(k)| && !Calls(k)[n].cf.mark.InBlock()
    requires forall i :: 0 <= i < n ==> Calls(k)[i].cf.mark.InBlock()
    ensures FunctionFrame(k) == Caller(k, n)
  {
    hide ChainOk, Calls;
    var j := FunctionFrameFound(k);
  }

  lemma FunctionFramePc(k: Stack, pc: nat)
    requires k.HasFrame() && k.base > 0 && k.Cf().mark.InBlock()
    ensures FunctionFrame(k.(pc := pc)) == FunctionFrame(k)
  {
  }

  /** Once the argument stack is empty, clearing it changes nothing. */
  lemma NothingToClear(m: Machine)
    requires m.k.sp == m.k.sbase
    ensures ClearArgs(m) == m
  {
  }

  /** A return from inside blocks takes the path that a return from the function takes. */
  lemma ReturnPaths(m: Machine, d: nat, n: nat)
    requires !InNative(m.k) && InvWith(m, Waiting(m.k, m.k.Cf().result)) && InBlocks(m, n)
    ensures var f := Unwind(m, Caller(m.k, n).base);
      && ReturnX(Advance(m, d)) == ReturnWith(f, m.k.Cf().result)
      && !InNative(f.k) && f.k.sp == f.k.sbase && f.k.Cf().result == m.k.Cf().result
      && InvWith(f, Waiting(m.k, m.k.Cf().result))
  {
    hide ChainOk, Accounted, LimboOk, CallsOk, Calls, OwnedValues, LimboObjects, Unwind, Deliver, ClearArgs, Leave,
         CleanLimbo, CleanVars, SameBelow, FunctionFrame, Caller;
    var hand, result := Waiting(m.k, m.k.Cf().result), m.k.Cf().result;
    TopCall(m.k);
    FunctionFrameAt(m.k, n);
    FunctionFramePc(m.k, m.k.pc + d);
    CallerStep(m.k, n);
    CallerCalls(m.k, n);
    var fb, target := Caller(m.k, n).base, Caller(m.k, n + 1).base;
    UnwindOk(m, hand, n);
    var f := Unwind(m, fb);
    FunctionRunning(m, f, n);
    UnwindOneMore(m, hand, n);
    CallerBase(m.k, n + 1);
    UnwindAdvanced(m, hand, d, n + 1);
    var md := Advance(m, d);
    assert md.k.Cf() == m.k.Cf() && md.k.HasFrame();
    assert ReturnX(md) == Deliver(ClearArgs(Unwind(md, target)), result);
    CleanFrameOk(f, hand);
    NothingToClear(CleanLimbo(CleanVars(f, 0)));
    assert CleanCall(f) == CleanLimbo(CleanVars(f, 0));
  }

  /** When the blocks are gone, the function is running, with its argument stack empty. */
  lemma FunctionRunning(m: Machine, f: Machine, n: nat)
    requires ChainOk(m.k) && !InNative(m.k) && InBlocks(m, n)
    requires SameBelow(f.k, Caller(m.k, n)) && Calls(f.k) == Calls(m.k)[n..] && ChainOk(f.k)
    ensures !InNative(f.k) && f.k.sp == f.k.sbase && f.k.Cf().result == m.k.Cf().result
    ensures f.k.base > 0
  {
    hide ChainOk, Calls, Caller, SameBelow;
    SameBelowRegisters(f.k, Caller(m.k, n));
    CallerCalls(m.k, n);
    TopCall(m.k);
    var j := FunctionFrameFound(m.k);
    TopCall(f.k);
    assert Calls(f.k)[0] == Calls(m.k)[n];
  }

  /** RETURN does not depend on where in the code it is. */
  lemma ReturnWithPc(m: Machine, pc: nat, result: int)
    requires !InNative(m.k) && ChainOk(m.k) && m.k.sp == m.k.sbase
    requires CleanLimbo(CleanVars(m, 0)).k.sp == CleanLimbo(CleanVars(m, 0)).k.sbase
    ensures ReturnWith(m.(k := m.k.(pc := pc)), result) == ReturnWith(m, result)
  {
    hide ChainOk, Release, Leave, Deliver, CleanLimbo, CleanVars, ClearArgs;
    var m' := m.(k := m.k.(pc := pc));
    CleanCallPc(m, pc);
    assert InNative(m'.k) == InNative(m.k);
    NothingToClear(CleanLimbo(CleanVars(m, 0)));
    CleanedRegisters(m);
    CleanedRegisters(m');
    NothingToClear(CleanLimbo(CleanVars(m', 0)));
  }

  lemma CleanedRegisters(m: Machine)
    ensures CleanLimbo(CleanVars(m, 0)).k.sp == m.k.sp && CleanLimbo(CleanVars(m, 0)).k.sbase == m.k.sbase
  {
    hide Release;
  }

  lemma ReturnCodeSet(m: Machine, hand: seq<Value>)
    requires InvWith(m, hand)
    ensures var m1 := SetException(m, Integer(XRETURN));
      InvWith(m1, hand) && m1.k == m.k && m1.next == m.next && m1.exception == Integer(XRETURN)
  {
    hide ChainOk, Accounted, LimboOk, CallsOk, Calls, OwnedValues, LimboObjects, Release, Count, Roots;
    CountPush(hand, Integer(XRETURN));
    HandSame(m, hand, hand + [Integer(XRETURN)]);
    SetExceptionKeeps(m, hand, Integer(XRETURN));
  }

  /** The scheduler's part of RETX and RETXR. */
  lemma ReturnCodeRaised(m: Machine, d: nat, n: nat)
    requires !InNative(m.k) && InvWith(m, Waiting(m.k, m.k.Cf().result)) && InBlocks(m, n)
    ensures var f := Unwind(SetException(m, Integer(XRETURN)), Caller(m.k, n).base);
      && ThrowCode(Advance(m, d), XRETURN) == ReturnWith(Advance(f, 1), m.k.Cf().result)
      && !InNative(f.k) && f.k.sp == f.k.sbase && f.k.Cf().result == m.k.Cf().result
      && InvWith(f, Waiting(m.k, m.k.Cf().result)) && Calls(f.k) == Calls(m.k)[n..]
  {
    hide ChainOk, Accounted, LimboOk, CallsOk, Calls, OwnedValues, LimboObjects, Unwind, ReturnWith, ReturnX, Caller,
         Release;
    var m1, result := SetException(m, Integer(XRETURN)), m.k.Cf().result;
    ReturnCodeSet(m, Waiting(m.k, result));
    ReturnPaths(m1, d, n);
    UnwindOk(m1, Waiting(m.k, result), n);
    var f := Unwind(m1, Caller(m1.k, n).base);
    assert SetException(Advance(m, d), Integer(XRETURN)) == Advance(m1, d);
    assert ThrowCode(Advance(m, d), XRETURN) == ReturnX(Advance(m1, d));
    CleanedRegisters(f);
    ReturnWithPc(f, f.k.pc + 1, result);
  }

  lemma RetXRuns(m: Machine)
    requires CanExecute(m, RetX)
    ensures !InNative(m.k) && m.k.Cf().result < 0 && Exec(m, RetX) == ThrowCode(Advance(m, 1), XRETURN)
  {
    hide ThrowCode;
  }

  lemma ReturnRuns(m: Machine)
    requires !InNative(m.k) && m.k.sp == m.k.sbase
    ensures CanExecute(m, Return) && Exec(m, Return) == ReturnWith(Advance(m, 1), -1)
  {
    hide ReturnWith;
  }

  /** RETX from any nest of try blocks and catchers does what RETURN does in the function that
      they are part of, once they have been unwound: same registers, same references, same
      result. The exception register is the only trace of the difference. */
  lemma RetXIsReturn(m: Machine, n: nat)
    requires Inv(m) && CanExecute(m, RetX) && InBlocks(m, n)
    ensures var f := Unwind(SetException(m, Integer(XRETURN)), Caller(m.k, n).base);
      && Exec(m, RetX) == Exec(f, Return)
      && Inv(f) && CanExecute(f, Return) && Calls(f.k) == Calls(m.k)[n..]
  {
    hide ChainOk, Accounted, LimboOk, CallsOk, Calls, OwnedValues, LimboObjects, Unwind, ReturnWith, ThrowCode,
         Caller, Release, Exec, CanExecute, InBlocks;
    RetXRuns(m);
    TopResult(m.k);
    ReturnCodeRaised(m, 1, n);
    ReturnRuns(Unwind(SetException(m, Integer(XRETURN)), Caller(m.k, n).base));
  }

  // ---------------------------------------------------------------------------------------
  // RETXR
  // ---------------------------------------------------------------------------------------

  /** `m` with a result written to cell `j`, and another store. */
  function Written(m: Machine, j: nat, v: Value, st: Store): Machine {
    WriteCell(m, j, v).(st := st)
  }

  lemma FramedWritten(k: Stack, j: nat, v: Value)
    requires Framed(k) && j < k.Cf().rSp
    ensures var w := k.Write(j, v);
      Framed(w) && w.Cf() == k.Cf() && w.Vars() == k.Vars() && InNative(w) == InNative(k)
  {
  }

  lemma CallValuesWritten(k: Stack, j: nat, v: Value)
    requires Framed(k) && j < k.Cf().rSp
    ensures CallValues(k.Write(j, v)) == CallValues(k)
  {
    hide VarValues, ArgValues, Framed;
    FramedOrder(k);
    FramedWritten(k, j, v);
    var w := k.Write(j, v);
    ArgValuesAgree(k.heap, w.heap, k.sbase, k.sp);
    VarValuesAgree(k.heap, w.heap, k.base, k.Vars());
  }

  lemma FramedOrder(k: Stack)
    requires Framed(k)
    ensures k.HasFrame() && k.HasTable() && k.Cf().cleantab == k.Cf().rSp
    ensures k.Cf().rSp + CFREGS < k.base <= k.sbase <= k.sp <= |k.heap|
  {
  }

  lemma CleanedWritten(k: Stack, j: nat, v: Value)
    requires Framed(k) && j < k.Cf().rSp
    ensures Framed(k.Write(j, v)) && Cleaned(k.Write(j, v)) == Cleaned(k).Write(j, v)
    ensures |Cleaned(k).heap| == |k.heap| && Cleaned(k).base == k.base
  {
    hide Framed;
    FramedOrder(k);
    FramedWritten(k, j, v);
    if !InNative(k) {
      var w := k.Write(j, v);
      var tab := Table(k.heap[k.Cf().cleantab].bytes[0 := 0]);
      var h := k.heap[k.Cf().cleantab := tab];
      assert CutClean(k, 0).heap == h && CutClean(w, 0).heap == w.heap[k.Cf().cleantab := tab];
      assert w.heap[k.Cf().cleantab := tab] == h[j := Val(v)];
      var c := Frame(k.Cf().(limbo := []));
      assert SetLimbo(CutClean(k, 0), []).heap == h[k.base - CFREGS := c];
      assert h[j := Val(v)][k.base - CFREGS := c] == h[k.base - CFREGS := c][j := Val(v)];
    }
  }

  lemma BelowWritten(k: Stack, j: nat, v: Value)
    requires Framed(k) && j < k.Cf().rSp
    ensures Cleaned(k).HasFrame() && j < |Cleaned(k).heap|
    ensures Cleaned(k).Write(j, v).HasFrame()
    ensures Cleaned(k).Write(j, v).Below() == Cleaned(k).Below().Write(j, v)
  {
  }

  /** Leaving a call does not touch what lies below its frame, nor depend on it. */
  lemma LeaveWritten(m: Machine, j: nat, v: Value, st: Store)
    requires Framed(m.k) && j < m.k.Cf().rSp
    ensures Leave(CleanCall(Written(m, j, v, st))) ==
            Written(Leave(CleanCall(m)), j, v, Release(st, CallValues(m.k)))
  {
    hide Release, Cleaned, CallValues, CleanCall, Framed;
    FramedOrder(m.k);
    CleanedWritten(m.k, j, v);
    BelowWritten(m.k, j, v);
    FramedWritten(m.k, j, v);
    CallValuesWritten(m.k, j, v);
    CleanCallIs(m);
    CleanCallIs(Written(m, j, v, st));
  }

  lemma {:induction false} CallerSp(k: Stack, n: nat)
    requires ChainOk(k) && n <= |Calls(k)|
    ensures Caller(k, n).sp <= k.sp
    ensures n > 0 ==> k.HasFrame() && Caller(k, n).sp <= k.Cf().rSp
    decreases n
  {
    hide LayoutOk, LinksOk;
    if n > 0 {
      FrameBelowSp(k);
      assert Calls(k) == [ActiveCall(k.base, k.Cf().(limbo := []))] + Calls(k.Below());
      BelowOk(k);
      CallerSp(k.Below(), n - 1);
    }
  }

  /** Neither does leaving any number of calls. */
  lemma {:induction false} UnwindWritten(m: Machine, hand: seq<Value>, n: nat, j: nat, v: Value, st: Store)
    requires InvWith(m, hand) && n <= |Calls(m.k)| && j < Caller(m.k, n).sp
    ensures var target := Caller(m.k, n).base;
      Unwind(Written(m, j, v, st), target) == Written(Unwind(m, target), j, v, Release(st, CutValues(m.k, n)))
    decreases n
  {
    hide ChainOk, Accounted, LimboOk, CallsOk, OwnedValues, LimboObjects, CleanCall, Leave, SameBelow, Disown, Framed,
         CallValues;
    var target := Caller(m.k, n).base;
    CallerBase(m.k, n);
    if n > 0 {
      LeaveCallOk(m, hand);
      ChainFramed(m.k);
      CallerSp(m.k, n);
      LeaveWritten(m, j, v, st);
      WrittenTop(m, j, v, st);
      var m1, w := Leave(CleanCall(m)), Written(m, j, v, st);
      BelowOk(m.k);
      CallerSame(m1.k, m.k.Below(), n - 1);
      SameBelowRegisters(Caller(m1.k, n - 1), Caller(m.k.Below(), n - 1));
      SameBelowRegisters(m1.k, m.k.Below());
      UnwindWritten(m1, hand, n - 1, j, v, Release(st, CallValues(m.k)));
      assert Unwind(m, target) == Unwind(m1, target);
      assert Unwind(w, target) == Unwind(Leave(CleanCall(w)), target);
      CutValuesSame(m1.k, m.k.Below(), n - 1);
      ReleaseAppend(st, CallValues(m.k), CutValues(m.k.Below(), n - 1));
    }
  }

  lemma WrittenTop(m: Machine, j: nat, v: Value, st: Store)
    requires Framed(m.k) && j < m.k.Cf().rSp
    ensures var w := Written(m, j, v, st);
      w.k.base == m.k.base > 0 && w.k.HasFrame() && w.k.Cf() == m.k.Cf()
  {
  }

  lemma SameBelowOwns(a: Stack, b: Stack)
    requires ChainOk(b) && SameBelow(a, b)
    ensures OwnedValues(a) == OwnedValues(b) && LimboObjects(a) == LimboObjects(b)
  {
    hide LinkChain, LayoutOk, LayoutChain;
    ValuesAbove(b);
    OwnedAgree(b, a.heap);
    ShapeLayout(b, a.heap);
    assert a == b.(heap := a.heap);
  }

  /** What unwinding gives up, added to what is owned afterwards, is what was owned before. */
  lemma UnwoundRefs(m: Machine, n: nat, f: Machine)
    requires ChainOk(m.k) && n <= |Calls(m.k)| && SameBelow(f.k, Caller(m.k, n))
    requires !f.exception.Ref? && (f.statics, f.host) == (m.statics, m.host)
    ensures SameRefs(Roots(m), Roots(f) + ([m.exception] + CutValues(m.k, n)))
  {
    hide ChainOk, Calls, Caller, SameBelow, OwnedValues, LimboObjects, CutValues, Count;
    var cut := CutValues(m.k, n);
    CallerCalls(m.k, n);
    SameBelowOwns(f.k, Caller(m.k, n));
    OthersCount(m);
    OthersCount(f);
    forall o: Obj ensures Count(Roots(m), o) == Count(Roots(f) + ([m.exception] + cut), o) {
      CutSplit(m.k, n, o);
      assert Roots(m) + [] == Roots(m);
      RootsCount(m, [], o);
      CountNone(o);
      RootsCount(f, [m.exception] + cut, o);
      CountCons(m.exception, cut, o);
    }
  }

  /** Taking a reference before the blocks are unwound or after it comes to the same thing. */
  lemma OwnBeforeUnwind(m: Machine, n: nat, v: Value)
    requires Inv(m) && n <= |Calls(m.k)| && IsLive(m.st, v)
    requires Rooted(Unwind(SetException(m, Integer(XRETURN)), Caller(m.k, n).base), v)
    ensures var f := Unwind(SetException(m, Integer(XRETURN)), Caller(m.k, n).base);
      Release(Release(Own(m.st, v), [m.exception]), CutValues(m.k, n)) == Own(f.st, v)
  {
    hide ChainOk, Accounted, LimboOk, CallsOk, Calls, OwnedValues, LimboObjects, Unwind, Caller, Release, CutValues,
         Count, SameBelow, Own, Roots;
    var m1, cut := SetException(m, Integer(XRETURN)), CutValues(m.k, n);
    ReturnCodeSet(m, []);
    UnwindOk(m1, [], n);
    UnwindReleases(m1, [], n);
    var f := Unwind(m1, Caller(m.k, n).base);
    UnwoundRefs(m, n, f);
    assert Roots(m) + [] == Roots(m);
    AccountedSameRefs(m.st, Roots(m), Roots(f) + ([m.exception] + cut));
    ReleaseAppend(m.st, [m.exception], cut);
    ReleaseAppend(Own(m.st, v), [m.exception], cut);
    RootedLive(f, [], v);
    OwnReleaseCommute(m.st, Roots(f), [m.exception] + cut, v);
  }

  lemma BlocksSame(m: Machine, m': Machine, n: nat)
    requires ChainOk(m.k) && ChainOk(m'.k) && Calls(m'.k) == Calls(m.k) && InBlocks(m, n)
    ensures InBlocks(m', n) && n <= |Calls(m.k)| && Caller(m'.k, n).base == Caller(m.k, n).base
  {
    hide ChainOk, Calls, Caller;
    CallerRegisters(m.k, n - 1);
    CallerRegisters(m'.k, n - 1);
  }

  /** Unwinding the blocks and copying the result commute. */
  lemma CopyBeforeUnwind(m: Machine, n: nat, v: Value)
    requires Inv(m) && !InNative(m.k) && InBlocks(m, n) && Rooted(m, v)
    requires Rooted(Unwind(SetException(m, Integer(XRETURN)), Caller(m.k, n).base), v)
    ensures var x, target := Integer(XRETURN), Caller(m.k, n).base;
      Unwind(SetException(CopyResult(m, v), x), target) == CopyResult(Unwind(SetException(m, x), target), v)
  {
    hide ChainOk, Accounted, LimboOk, CallsOk, Calls, OwnedValues, LimboObjects, Unwind, Caller, Release, CutValues,
         Count, SameBelow, Own, Roots, Rooted;
    var m1, result := SetException(m, Integer(XRETURN)), m.k.Cf().result;
    ReturnCodeSet(m, []);
    UnwindOk(m1, [], n);
    var f := Unwind(m1, Caller(m.k, n).base);
    CallerCalls(m.k, n);
    FunctionRunning(m, f, n);
    if result >= 0 {
      RootedLive(m, [], v);
      ResultBelowBlocks(m, n);
      var st := Release(Own(m.st, v), [m.exception]);
      assert SetException(CopyResult(m, v), Integer(XRETURN)) == Written(m1, result, v, st);
      UnwindWritten(m1, [], n, result, v, st);
      OwnBeforeUnwind(m, n, v);
    }
  }

  lemma ResultBelowBlocks(m: Machine, n: nat)
    requires ChainOk(m.k) && !InNative(m.k) && InBlocks(m, n) && m.k.Cf().result >= 0
    ensures m.k.Cf().result < Caller(m.k, n).sp && m.k.Cf().result < |m.k.heap|
  {
    hide ChainOk, Calls, Caller;
    TopCall(m.k);
    var j := FunctionFrameFound(m.k);
    CallLinksOk(m.k, n);
    CallerCalls(m.k, n);
    CallerStep(m.k, n);
    FrameBelowSp(Caller(m.k, n));
    CallerSp(m.k, n);
    assert n == j;
    assert FreeSlot(Caller(m.k, n + 1), m.k.Cf().result);
    CallerCalls(m.k, n + 1);
  }

  lemma RetXRRuns(m: Machine, a: nat)
    requires CanExecute(m, RetXR(a))
    ensures !InNative(m.k) && Rooted(m, m.Reg(a))
    ensures Exec(m, RetXR(a)) == ThrowCode(CopyResult(Advance(m, 2), m.Reg(a)), XRETURN)
    ensures CopyResult(Advance(m, 2), m.Reg(a)) == Advance(CopyResult(m, m.Reg(a)), 2)
  {
    hide ThrowCode, Rooted, Own;
  }

  lemma ReturnRRuns(m: Machine, b: nat)
    requires CanExecute(m, ReturnR(b))
    ensures !InNative(m.k) && Rooted(m, m.Reg(b)) && m.k.sp == m.k.sbase
    ensures Exec(m, ReturnR(b)) == ReturnWith(CopyResult(Advance(m, 2), m.Reg(b)), m.k.Cf().result)
    ensures CopyResult(Advance(m, 2), m.Reg(b)) == Advance(CopyResult(m, m.Reg(b)), 2)
  {
    hide ReturnWith, Rooted, Own;
  }

  lemma FunctionResult(m: Machine, f: Machine, n: nat)
    requires ChainOk(m.k) && !InNative(m.k) && InBlocks(m, n)
    requires SameBelow(f.k, Caller(m.k, n)) && Calls(f.k) == Calls(m.k)[n..] && ChainOk(f.k)
    ensures !InNative(f.k) && f.k.Cf().result == m.k.Cf().result
  {
    hide ChainOk, Calls, Caller, SameBelow, InBlocks;
    FunctionRunning(m, f, n);
  }

  /** If the value survives the unwinding on its own, in a register of the function, then that is
      the RETURNR of this register. */
  lemma RetXRIsReturnROfRegister(m: Machine, n: nat, a: nat, b: nat)
    requires Inv(m) && CanExecute(m, RetXR(a)) && InBlocks(m, n)
    requires var f := Unwind(SetException(m, Integer(XRETURN)), Caller(m.k, n).base);
      CanExecute(f, ReturnR(b)) && f.Reg(b) == m.Reg(a)
    ensures var f := Unwind(SetException(m, Integer(XRETURN)), Caller(m.k, n).base);
      && Exec(m, RetXR(a)) == Exec(f, ReturnR(b))
      && Inv(f) && Calls(f.k) == Calls(m.k)[n..]
  {
    hide ChainOk, Accounted, LimboOk, CallsOk, Calls, OwnedValues, LimboObjects, Unwind, ReturnWith, ThrowCode,
         Caller, Release, Exec, CanExecute, InBlocks, CopyResult, Rooted;
    var v := m.Reg(a);
    RetXRRuns(m, a);
    CopyResultOk(m, v);
    var mc := CopyResult(m, v);
    BlocksSame(m, mc, n);
    ReturnCodeRaised(mc, 2, n);
    var m1 := SetException(m, Integer(XRETURN));
    ReturnCodeSet(m, []);
    UnwindOk(m1, [], n);
    var f := Unwind(m1, Caller(m.k, n).base);
    ReturnRRuns(f, b);
    CopyBeforeUnwind(m, n, v);
    var fc := CopyResult(f, v);
    FunctionResult(m, f, n);
    CleanedRegisters(fc);
    ReturnWithPc(fc, fc.k.pc + 1, m.k.Cf().result);
    ReturnWithPc(fc, fc.k.pc + 2, m.k.Cf().result);
  }

  /** What RETURNR does with a value once it has taken a reference to it. */
  function ReturnHeld(m: Machine, v: Value): Outcome
    requires m.k.HasFrame()
  {
    var result := m.k.Cf().result;
    ReturnWith(if result >= 0 then WriteCell(m, result, v) else m, result)
  }

  /** The reference that RETURNR takes, if the result is wanted. */
  function Held(m: Machine, v: Value): Machine {
    if m.k.HasFrame() && m.k.Cf().result >= 0 then TakeRef(m, v) else m
  }

  /** RETURNR takes a reference to the value, if the result is wanted, and then returns it. */
  predicate HoldsAndReturns(m: Machine, b: nat) {
    var h := Held(Advance(m, 2), m.Reg(b));
    h.k.HasFrame() && Exec(m, ReturnR(b)) == ReturnHeld(h, m.Reg(b))
  }

  lemma ReturnRHolds(m: Machine, b: nat)
    requires CanExecute(m, ReturnR(b))
    ensures HoldsAndReturns(m, b)
  {
    hide ReturnWith, Rooted, Own;
    ReturnRRuns(m, b);
  }

  /** What RETXR copies is below all blocks, so that they are unwound around it. */
  lemma ResultStays(m: Machine, n: nat, v: Value)
    requires Inv(m) && !InNative(m.k) && InBlocks(m, n) && Rooted(m, v)
    ensures var x, target := Integer(XRETURN), Caller(m.k, n).base;
      var h := Unwind(SetException(Held(m, v), x), target);
      && InvWith(h, if m.k.Cf().result >= 0 then [v] else [])
      && !InNative(h.k) && h.k.Cf().result == m.k.Cf().result && Calls(h.k) == Calls(m.k)[n..]
      && Unwind(SetException(CopyResult(m, v), x), target)
         == if m.k.Cf().result >= 0 then WriteCell(h, m.k.Cf().result, v) else h
  {
    hide ChainOk, Accounted, LimboOk, CallsOk, Calls, OwnedValues, LimboObjects, Unwind, Caller, Release, CutValues,
         Count, SameBelow, Own, Roots, Rooted;
    var result := m.k.Cf().result;
    var hand := if result >= 0 then [v] else [];
    RootedLive(m, [], v);
    TakeRefOk(m, [], v);
    assert [] + [v] == [v];
    var m0 := Held(m, v);
    var m1 := SetException(m0, Integer(XRETURN));
    ReturnCodeSet(m0, hand);
    UnwindOk(m1, hand, n);
    UnwindReleases(m1, hand, n);
    var h := Unwind(m1, Caller(m.k, n).base);
    FunctionResult(m, h, n);
    if result >= 0 {
      ResultBelowBlocks(m, n);
      assert SetException(CopyResult(m, v), Integer(XRETURN)) == Written(m1, result, v, m1.st);
      UnwindWritten(m1, hand, n, result, v, m1.st);
    }
  }

  /** RETXR from any nest of try blocks and catchers does what RETURNR of the same value does in
      the function that they are part of, once they have been unwound with the value in hand.
      The value may have no owner outside the blocks, and be in no register of the function. */
  lemma RetXRIsReturnR(m: Machine, n: nat, a: nat) returns (h: Machine)
    requires Inv(m) && CanExecute(m, RetXR(a)) && InBlocks(m, n)
    ensures h == Unwind(SetException(Held(m, m.Reg(a)), Integer(XRETURN)), Caller(m.k, n).base)
    ensures !InNative(h.k) && h.k.Cf().result == m.k.Cf().result && Calls(h.k) == Calls(m.k)[n..]
    ensures InvWith(h, if m.k.Cf().result >= 0 then [m.Reg(a)] else [])
    ensures Advance(h, 2).k.HasFrame() && Exec(m, RetXR(a)) == ReturnHeld(Advance(h, 2), m.Reg(a))
    // That is what RETURNR does, in any state, once it has a reference in hand.
    ensures forall f: Machine, b: nat :: CanExecute(f, ReturnR(b)) ==> HoldsAndReturns(f, b)
  {
    hide ChainOk, Accounted, LimboOk, CallsOk, Calls, OwnedValues, LimboObjects, Unwind, ReturnWith, ThrowCode,
         Caller, Release, Exec, CanExecute, InBlocks, CopyResult, Rooted, Held, HoldsAndReturns;
    var v := m.Reg(a);
    RetXRRuns(m, a);
    CopyResultOk(m, v);
    var mc := CopyResult(m, v);
    BlocksSame(m, mc, n);
    ReturnCodeRaised(mc, 2, n);
    ResultStays(m, n, v);
    h := Unwind(SetException(Held(m, v), Integer(XRETURN)), Caller(m.k, n).base);
    var fc := Unwind(SetException(mc, Integer(XRETURN)), Caller(m.k, n).base);
    CleanedRegisters(fc);
    ReturnWithPc(fc, fc.k.pc + 1, m.k.Cf().result);
    ReturnWithPc(fc, fc.k.pc + 2, m.k.Cf().result);
    forall f: Machine, b: nat | CanExecute(f, ReturnR(b)) ensures HoldsAndReturns(f, b) { ReturnRHolds(f, b); }
  }

  /** The result of RETXR arrives, and the caller gets its registers back, as after RETURN. `n` is
      the number of blocks. An object may have been owned by nothing but the blocks: it is alive,
      and in limbo, or the native caller has a reference to it. */
  lemma RetXRArrives(m: Machine, a: nat) returns (n: nat)
    requires Inv(m) && CanExecute(m, RetXR(a))
    ensures n < |Calls(m.k)| && !Calls(m.k)[n].cf.mark.InBlock()
    ensures forall i :: 0 <= i < n ==> Calls(m.k)[i].cf.mark.InBlock()
    ensures var r := Exec(m, RetXR(a)); var m', caller, v := r.m, Caller(m.k, n + 1), m.Reg(a);
      && Inv(m') && Calls(m'.k) == Calls(m.k)[n + 1..] && m'.statics == m.statics
      && (m'.k.base, m'.k.sbase, m'.k.sp, m'.k.pc) == (caller.base, caller.sbase, caller.sbase, caller.pc)
      && (r.Exit? <==> InNative(m'.k)) && (r.Exit? ==> r.code == XEND)
      && (m.k.Cf().result >= 0 && r.Continue? ==>
            RegValue(m'.k.heap, m.k.Cf().result) == v && (v.Ref? ==> IsLive(m'.st, v) && v.o in m'.limboed))
      && (m.k.Cf().result >= 0 && r.Exit? ==> m'.host == m.host + [v] && IsLive(m'.st, v))
  {
    hide ChainOk, Accounted, LimboOk, CallsOk, Calls, OwnedValues, LimboObjects, Receive, Count, Exec, CanExecute,
         CopyResult, Caller, Deliver, ThrowCode, Roots, Rooted;
    RetXRRuns(m, a);
    var m1;
    n, m1 := RetXRUnwound(m, a);
    ResultDelivered(m1, m.k.Cf().result);
  }

  /** What RETXR arrives at, before the result is delivered. */
  lemma RetXRUnwound(m: Machine, a: nat) returns (n: nat, m1: Machine)
    requires Inv(m) && CanExecute(m, RetXR(a))
    ensures n < |Calls(m.k)| && !Calls(m.k)[n].cf.mark.InBlock()
    ensures forall i :: 0 <= i < n ==> Calls(m.k)[i].cf.mark.InBlock()
    ensures Exec(m, RetXR(a)) == Deliver(m1, m.k.Cf().result) && -1 <= m.k.Cf().result
    ensures var waiting := Waiting(m1.k, m.k.Cf().result);
      InvWith(m1, waiting) && waiting == if m.k.Cf().result >= 0 then [m.Reg(a)] else []
    ensures Calls(m1.k) == Calls(m.k)[n + 1..] && (m1.statics, m1.host) == (m.statics, m.host)
    ensures var caller := Caller(m.k, n + 1);
      (m1.k.base, m1.k.sbase, m1.k.sp, m1.k.pc) == (caller.base, caller.sbase, caller.sbase, caller.pc)
  {
    hide ChainOk, Accounted, LimboOk, CallsOk, Calls, OwnedValues, LimboObjects, Count, Exec, CanExecute, Unwind,
         CopyResult, Caller, Deliver, ThrowCode, Roots, Rooted, ReturnX, FunctionFrame, SetException;
    RetXRRuns(m, a);
    var v, result := m.Reg(a), m.k.Cf().result;
    TopResult(m.k);
    AdvanceSame(m, 2);
    var m0 := Advance(m, 2);
    CopyResultOk(m0, v);
    var mc := CopyResult(m0, v);
    var hand := Waiting(mc.k, result);
    ReturnCodeSet(mc, hand);
    var m2 := SetException(mc, Integer(XRETURN));
    n := FunctionFrameFound(m2.k);
    TopCall(m2.k);
    assert Calls(m2.k) == Calls(m.k);
    CopiedRest(m0, v);
    m1 := ReturnXUnwound(m2, hand, n);
    RaiseReturn(mc);
    CallerRegisters(m.k, n);
    CallerRegisters(m2.k, n);
  }

  lemma CopiedRest(m: Machine, v: Value)
    ensures (CopyResult(m, v).statics, CopyResult(m, v).host) == (m.statics, m.host)
    ensures (SetException(CopyResult(m, v), Integer(XRETURN)).statics,
            SetException(CopyResult(m, v), Integer(XRETURN)).host)
            == (m.statics, m.host)
  {
    hide Own, Release;
  }

  lemma RaiseReturn(m: Machine)
    ensures ThrowCode(m, XRETURN) == ReturnX(SetException(m, Integer(XRETURN)))
  {
    hide ReturnX;
  }

  /** A result that is in hand, in its slot, is delivered. */
  lemma ResultDelivered(m: Machine, result: int)
    requires InvWith(m, Waiting(m.k, result)) && -1 <= result
    ensures var r := Deliver(m, result); var m' := r.m;
      && Inv(m') && Calls(m'.k) == Calls(m.k) && m'.statics == m.statics
      && (m'.k.base, m'.k.sbase, m'.k.sp, m'.k.pc) == (m.k.base, m.k.sbase, m.k.sp, m.k.pc)
      && (r.Exit? <==> InNative(m.k)) && InNative(m'.k) == InNative(m.k) && (r.Exit? ==> r.code == XEND)
      && (result >= 0 ==>
            var v := RegValue(m.k.heap, result);
            && (r.Continue? ==>
                  RegValue(m'.k.heap, result) == v && (v.Ref? ==> IsLive(m'.st, v) && v.o in m'.limboed))
            && (r.Exit? ==> m'.host == m.host + [v] && IsLive(m'.st, v)))
  {
    hide ChainOk, Accounted, LimboOk, CallsOk, Calls, OwnedValues, LimboObjects, Receive, Count, Roots;
    DeliverOk(m, result);
    DeliverRegisters(m, result);
    DeliverRest(m, result);
    if result >= 0 {
      var v := RegValue(m.k.heap, result);
      var m' := Deliver(m, result).m;
      if InNative(m.k) {
        LastHosted(m', v);
      } else {
        if v == Nil {
          ReceiveNil(m);
        } else {
          WaitingCell(m, result);
          ReceiveHeap(m, v, result);
        }
        assert Waiting(m.k, result) == [] + [v];
        ReceiveOk(m, [], v);
        if v.Ref? { LimboedLive(m', v); }
      }
    }
  }

  lemma DeliverRest(m: Machine, result: int)
    ensures Deliver(m, result).m.statics == m.statics
    ensures Deliver(m, result).m.k.base == m.k.base && InNative(Deliver(m, result).m.k) == InNative(m.k)
  {
  }

  /** What native code has a reference to is alive. */
  lemma LastHosted(m: Machine, v: Value)
    requires Inv(m) && m.host != [] && m.host[|m.host| - 1] == v
    ensures IsLive(m.st, v)
  {
    hide ChainOk, Accounted, LimboOk, CallsOk, Calls, OwnedValues, LimboObjects, Count;
    assert v in Roots(m);
    if v.Ref? {
      CountPositive(Roots(m), v.o);
      RootedLive(m, [], v);
    }
  }
}
