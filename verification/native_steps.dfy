/** What native code must observe, and that the invariant is kept by what it does. Native code is
    usually in control with `base` at the frame of its own function. But when an EEL function that
    it has called throws XEND, or throws something out of an UNTRY block, it gets control back
    with `base` still at a frame of EEL code. */
module NativeSteps {
  import opened Values
  import opened ObjectStore
  import opened CallStack
  import opened Frames
  import opened MachineState
  import opened CallLinks
  import opened Instructions
  import opened NativeCode
  import opened LeavingCalls
  import opened Unwinding
  import opened Safety
  import opened ExceptionFlow
  import opened Steps

  // ---------------------------------------------------------------------------------------
  // Rules
  // ---------------------------------------------------------------------------------------

  /** Register 0 is no variable with an object in it. */
  predicate FirstIsFree(m: Machine) {
    0 in m.k.Vars() ==> !m.Reg(0).Ref?
  }

  /** The call can be made from the frame at `base`: what an error overwrites is not lost, there is
      room for a result that is wanted, and the function finds its upvalues. */
  ghost predicate InvokeFits(m: Machine, f: Function) {
    if PassedCode(m, f) != XOK then FirstIsFree(m)
    else Enters(m, f, m.Reg(0) != Nil) ==>
           LinkFits(m.k, f) && (m.Reg(0) != Nil ==> FreeSlot(m.k, m.k.base))
  }

  /** Native code passes on what something owns, and overwrites nothing that owns an object. */
  ghost predicate WellBehaved(m: Machine, op: NativeOp) {
    match op
    case Reset => FirstIsFree(m)
    case Want => Owns(m.k, m.k.base) ==> !m.Reg(0).Ref?
    case Pass(v) => Rooted(m, v)
    case Invoke(f) => WellFormedFunction(f) && !f.native && InvokeFits(m, f)
    case Keep(v) => Rooted(m, v)
    case Drop(i) => i < |m.host|
    case Create => true
  }

  /** The frame at `base` can be left without cleaning it up: no object is on its limbo list, in its
      variables, or among its pending arguments if they are not removed; and if a native
      function called it then the program counter is where that was called. */
  ghost predicate LeavesNothing(m: Machine, x: int)
    requires m.k.HasFrame()
  {
    && m.k.Cf().limbo == []
    && (forall v :: v in FrameValues(if x == XOK then m.k else m.k.(sp := m.k.sbase)) ==> !v.Ref?)
    && (m.k.Below().base > 0 && InNative(m.k.Below()) ==> m.k.pc == m.k.Cf().rPc)
  }

  /** What is received at the end is what native code has put into its result slot, or at least no
      object is involved. */
  predicate ResultFits(m: Machine, call: ActiveCall, i: nat) {
    && m.k.HasFrame() && m.k.Cf().result >= 0 && i < |m.host|
    && (m.host[i].Ref? || Received(m, call, i).Ref? ==>
          m.host[i] == Received(m, call, i) && !InNative(m.k.Below()))
  }

  /** The native function that `call` is a call of may return, with code `x`. */
  ghost predicate FinishFits(m: Machine, call: ActiveCall, x: int, i: nat) {
    && m.k.base > 0 && m.k.HasFrame() && LeavesNothing(m, x)
    && (x == XOK && call.cf.f.results ==> ResultFits(m, call, i))
    && (x == XRETURN ==> !InNative(m.k.Below()) && NothingWaiting(m.k.Below()))
  }

  // ---------------------------------------------------------------------------------------
  // Register 0 of the frame at `base`
  // ---------------------------------------------------------------------------------------

  /** The register that a native function, or the top level, has for results. */
  lemma NativeSlot(k: Stack)
    requires ChainOk(k) && InNative(k)
    ensures FreeSlot(k, k.base)
  {
    if k.base > 0 {
      FrameBelowSp(k);
      assert LayoutOk(k) && LayoutChain(k.Below());
      OwnsBelow(k, k.base);
    } else {
      assert !k.HasFrame();
    }
  }

  /** Register 0 may be a register of the frame, or be the first pending argument, or not be part
      of the stack at all. */
  lemma FirstCell(k: Stack)
    requires ChainOk(k)
    ensures k.base <= k.sp <= |k.heap| && (k.base < k.sp ==> k.heap[k.base].Val?)
    ensures k.base < k.sp ==> FreeSlot(k, k.base) || Owns(k, k.base)
    ensures k.base == k.sp ==> !FreeSlot(k, k.base) && !Owns(k, k.base)
    ensures k.sp == k.sbase ==> (Owns(k, k.base) <==> 0 in k.Vars())
  {
    hide DistinctVars;
    if k.base > 0 {
      FrameBelowSp(k);
      assert LayoutOk(k) && LayoutChain(k.Below());
      OwnsBelow(k, k.base);
      VarsInFrame(k);
      if Owns(k, k.base) { OwnsBound(k, k.base); }
    } else {
      assert !k.HasFrame() && k.Vars() == [];
    }
  }

  lemma VarsInFrame(k: Stack)
    requires LayoutOk(k)
    ensures forall a :: a in k.Vars() ==> a < FrameSize(k.Cf().f)
  {
  }

  lemma FirstWritten(m: Machine, v: Value)
    requires Inv(m) && !v.Ref?
    ensures SameCalls(m, WriteReg(m, 0, v))
    ensures (Owns(m.k, m.k.base) ==> !m.Reg(0).Ref?) <==> Inv(WriteReg(m, 0, v))
  {
    hide ChainOk, Accounted, LimboOk, CallsOk, Calls, OwnedValues, LimboObjects, FreeSlot, Owns;
    FirstCell(m.k);
    var j, m' := m.k.base, WriteReg(m, 0, v);
    if Owns(m.k, j) {
      PlainHand(m, [], v);
      WriteOwnedOk(m, [], j, v);
      assert [] + [v] == [v] && [] + [m.Reg(0)] == [m.Reg(0)];
      HandIsNone(m', [m.Reg(0)]);
    } else if j < m.k.sp {
      WriteFreeOk(m, [], j, v);
    } else if j < |m.k.heap| {
      AgreeChain(m.k, m'.k.heap);
      RebalanceSame(m, [], m', []);
    }
  }

  /** References in hand, and none in hand: there are none among them. */
  lemma HandIsNone(m: Machine, hand: seq<Value>)
    requires InvWith(m, hand)
    ensures Inv(m) <==> forall v :: v in hand ==> !v.Ref?
  {
    hide ChainOk, LimboOk, CallsOk, Calls, OwnedValues, LimboObjects;
    assert Roots(m) + [] == Roots(m);
    if Inv(m) {
      forall o: Obj ensures Count(hand, o) == 0 {
        CountAppend(Roots(m), hand, o);
        assert ObjectAccounted(m.st, Roots(m), o) && ObjectAccounted(m.st, Roots(m) + hand, o);
      }
      forall v | v in hand ensures !v.Ref? {
        if v.Ref? { CountPositive(hand, v.o); }
      }
    }
    if forall v :: v in hand ==> !v.Ref? {
      forall o: Obj ensures Count(hand, o) == Count([], o) { CountPositive(hand, o); }
      HandSame(m, hand, []);
    }
  }

  lemma ResetOk(m: Machine)
    requires Inv(m)
    ensures SameCalls(m, ResetArgs(m))
    ensures Inv(ResetArgs(m)) <==> FirstIsFree(m)
  {
    hide ChainOk, Accounted, LimboOk, CallsOk, Calls, OwnedValues, LimboObjects, FreeSlot, Owns, WriteReg, ClearArgs;
    ClearArgsOk'(m, []);
    ClearedVars(m);
    FirstCell(ClearArgs(m).k);
    FirstWritten(ClearArgs(m), Nil);
  }

  /** Clearing the argument stack moves no cells around. */
  lemma ArgsCleared(m: Machine)
    requires m.k.sbase <= m.k.sp <= |m.k.heap|
    ensures ClearArgs(m).k == m.k.(sp := m.k.sbase)
  {
  }

  lemma ClearedVars(m: Machine)
    ensures ClearArgs(m).k.Vars() == m.k.Vars() && ClearArgs(m).Reg(0) == m.Reg(0)
  {
    hide Release;
  }

  // ---------------------------------------------------------------------------------------
  // Calls
  // ---------------------------------------------------------------------------------------

  lemma InvokeEnters(m: Machine, f: Function)
    requires Inv(m) && WellFormedFunction(f) && !f.native && LinkFits(m.k, f)
    requires m.Reg(0) != Nil ==> FreeSlot(m.k, m.k.base)
    ensures var result := if m.Reg(0) != Nil then m.k.base else -1;
      var m' := Enter(m, f, result, 0, PLAIN);
      && CanEnter(m, f, result, 0, PLAIN) && Goes(m, SetException(m', Nil))
      && SetException(m', Nil).k == m'.k && Calls(m'.k) == [ActiveCall(m'.k.base, m'.k.Cf())] + Calls(m.k)
  {
    hide ChainOk, Accounted, LimboOk, CallsOk, Calls, OwnedValues, LimboObjects, FreeSlot, Enter, SetException,
         WellFormedFunction, Evolves, NativesStay;
    var result := if m.Reg(0) != Nil then m.k.base else -1;
    if f.need > 0 { TopIsParent(m.k, f); }
    EnterOk(m, [], f, result, 0, PLAIN);
    var m' := Enter(m, f, result, 0, PLAIN);
    NilHand(m', []);
    SetExceptionKeeps(m', [], Nil);
    EnterFrame(m, f, result, 0, PLAIN);
    EvolvesPush(m, SetException(m', Nil), ActiveCall(m'.k.base, m'.k.Cf()));
  }

  /** A function that its link fits finds its parent at the frame that the link leads to. */
  lemma TopIsParent(k: Stack, f: Function)
    requires ChainOk(k) && LinkFits(k, f) && f.need > 0
    ensures ParentAt(Calls(k), UvBase(k.heap, k.base, 0), f)
  {
    hide ChainOk, Calls;
    TopCall(k);
    assert Calls(k)[0].base == k.base && f.parent == Some(Calls(k)[0].cf.f);
  }

  lemma InvokeOk(m: Machine, f: Function)
    requires Inv(m) && WellBehaved(m, Invoke(f))
    ensures Goes(m, InvokeFunction(m, f).m)
  {
    hide ChainOk, Accounted, LimboOk, CallsOk, Calls, OwnedValues, LimboObjects, FreeSlot, Enter, SetException,
         WellFormedFunction, Evolves, NativesStay, PassedCode, ResetArgs, FirstIsFree, LinkFits;
    EvolvesSame(m, m);
    if PassedCode(m, f) != XOK {
      ResetOk(m);
      EvolvesSame(m, ResetArgs(m));
    } else if m.Reg(0) == Nil || f.results {
      InvokeEnters(m, f);
    }
  }

  /** At the frame of a native function, or at the top level, there is nothing to observe about
      register 0. But no function that uses upvalues finds them from there. */
  lemma HomeIsFree(m: Machine, f: Function)
    requires Inv(m) && InNative(m.k) && WellFormedFunction(f) && !f.native
    ensures WellBehaved(m, Reset) && WellBehaved(m, Want)
    ensures WellBehaved(m, Invoke(f)) <==> (Enters(m, f, m.Reg(0) != Nil) ==> f.need == 0)
  {
    hide Accounted, LimboOk, CallsOk, Calls, OwnedValues, LimboObjects, LayoutChain, LinkChain, Owns, PassedCode,
         WellFormedFunction;
    NativeSlot(m.k);
    if m.k.base > 0 { NativeCounter(m.k); } else { assert m.k.Vars() == []; }
    if f.need > 0 { assert !f.parent.value.native by { ParentIsEel(f); } }
  }

  lemma ParentIsEel(f: Function)
    requires WellFormedFunction(f) && f.need > 0
    ensures f.parent.Some? && !f.parent.value.native
  {
  }

  /** What `eel_call` makes of a result that it has no room for. */
  lemma InvokeBreaks(m: Machine, f: Function)
    requires Inv(m) && PassedCode(m, f) == XOK && m.Reg(0) != Nil && f.results && !f.native
    requires !FreeSlot(m.k, m.k.base)
    ensures !Inv(InvokeFunction(m, f).m)
  {
    hide Accounted, LimboOk, CallsOk, Calls, OwnedValues, LimboObjects, LayoutChain, LinkChain, Release, FreeSlot,
         PassedCode;
    ValuesAbove(m.k);
    var up := UvBase(m.k.heap, m.k.base, 0);
    PushFrameAgree(m.k, f, m.k.base, up, m.next, PLAIN);
    var k' := PushFrame(m.k, f, m.k.base, up, m.next, PLAIN);
    assert InvokeFunction(m, f).m.k == k';
    AgreeChain(m.k, k'.heap);
    if Inv(InvokeFunction(m, f).m) { ResultFree(k'); }
  }

  /** The calls are in order, but the running one does not have the link that it needs. */
  lemma LinkMissing(k: Stack, up: Stack, next: nat)
    requires ChainOk(up) && k.HasFrame() && k.Cf().upvalues == up.base
    requires Calls(k) == [ActiveCall(k.base, k.Cf())] + Calls(up) && !LinkFits(up, k.Cf().f)
    ensures !CallsOk(Calls(k), next)
  {
    hide ChainOk, Calls;
    if UplinkOk(Calls(k), 0) {
      var j :| 0 < j < |Calls(k)| && Calls(k)[j].base == up.base && k.Cf().f.parent == Some(Calls(k)[j].cf.f);
      assert Calls(k)[j] == Calls(up)[j - 1];
      SameCall(up, Calls(k)[j]);
    }
  }

  /** What `eel_call` makes of a function that does not find its upvalues. */
  lemma InvokeUnlinked(m: Machine, f: Function)
    requires Inv(m) && WellFormedFunction(f) && !f.native && Enters(m, f, m.Reg(0) != Nil) && !LinkFits(m.k, f)
    requires m.Reg(0) != Nil ==> FreeSlot(m.k, m.k.base)
    ensures !Inv(InvokeFunction(m, f).m)
  {
    hide ChainOk, Accounted, LimboOk, CallsOk, Calls, OwnedValues, LimboObjects, FreeSlot, Enter, LinkFits, PassedCode,
         WellFormedFunction, Release;
    var result := if m.Reg(0) != Nil then m.k.base else -1;
    EnterButLinks(m, f, result, 0, PLAIN);
    var m' := Enter(m, f, result, 0, PLAIN);
    LinkMissing(m'.k, m.k, m'.next);
  }

  lemma ResultFree(k: Stack)
    requires ChainOk(k) && k.base > 0 && k.HasFrame() && !k.Cf().f.native && k.Cf().result >= 0
    ensures FreeSlot(k.Below(), k.Cf().result)
  {
    assert LinksOk(k);
  }

  /** So what native code does to register 0 of whatever frame `base` is at keeps the invariant if
      and only if it follows the rules. */
  lemma NativeIff(m: Machine, op: NativeOp)
    requires Inv(m) && (op.Reset? || op.Want? || op.Invoke?)
    requires op.Invoke? ==> WellFormedFunction(op.f) && !op.f.native
    ensures Inv(NativeExec(m, op).m) <==> WellBehaved(m, op)
  {
    hide ChainOk, Accounted, LimboOk, CallsOk, Calls, OwnedValues, LimboObjects, FreeSlot, Owns, PassedCode,
         WellFormedFunction, FirstIsFree, ResetArgs, InvokeFunction, WriteReg;
    match op
    case Reset => ResetOk(m);
    case Want => FirstWritten(m, Scalar(3, 1));
    case Invoke(f) =>
      if WellBehaved(m, op) {
        InvokeOk(m, f);
      } else if PassedCode(m, f) != XOK {
        ResetOk(m);
        assert InvokeFunction(m, f).m == ResetArgs(m) by { InvokeFails(m, f); }
      } else if m.Reg(0) != Nil && !FreeSlot(m.k, m.k.base) {
        InvokeBreaks(m, f);
      } else {
        InvokeUnlinked(m, f);
      }
  }

  lemma InvokeFails(m: Machine, f: Function)
    requires PassedCode(m, f) != XOK
    ensures InvokeFunction(m, f).m == ResetArgs(m)
  {
    hide PassedCode, ResetArgs;
  }

  lemma NativeOk(m: Machine, op: NativeOp)
    requires Inv(m) && WellBehaved(m, op)
    ensures Goes(m, NativeExec(m, op).m)
  {
    hide ChainOk, Accounted, LimboOk, CallsOk, Calls, OwnedValues, LimboObjects, FreeSlot, Own, Release, Construct,
         PushArg, InvokeFunction, ResetArgs, WriteReg, Owns;
    match op
    case Reset => ResetOk(m);
    case Want => FirstWritten(m, Scalar(3, 1));
    case Pass(v) => PushOk(m, v);
    case Invoke(f) => InvokeOk(m, f);
    case Keep(v) =>
      RootedLive(m, [], v);
      TakeRefOk(m, [], v);
      HostTakesOk(TakeRef(m, v), [], v);
    case Drop(i) =>
      HostGivesOk(m, [], i);
      GiveUpOk(HostLoses(m, i), [], [m.host[i]]);
    case Create =>
      ConstructOk(m, [], []);
      HostTakesOk(m.(st := Construct(m.st, [])), [], Ref(|m.st|));
  }

  // ---------------------------------------------------------------------------------------
  // The end of a native function
  // ---------------------------------------------------------------------------------------

  lemma BelowMoved(k: Stack, pc: nat)
    requires ChainOk(k) && k.base > 0 && k.HasFrame()
    requires k.Below().base > 0 && InNative(k.Below()) ==> pc == k.Cf().rPc
    ensures var b, k' := k.Below(), k.Below().(pc := pc);
      && ChainOk(b) && ChainOk(k') && Calls(k') == Calls(b) && OwnedValues(k') == OwnedValues(b)
      && LimboObjects(k') == LimboObjects(b)
  {
    hide LayoutOk, LinksOk, ArgValues, VarValues;
    var b := k.Below();
    BelowOk(k);
    if b.base > 0 {
      BelowOk(b);
      if !b.Cf().f.native { AdvanceChain(b, pc); } else { assert b.(pc := pc) == b; }
    } else {
      assert FrameValues(b.(pc := pc)) == FrameValues(b);
    }
  }

  /** What happens to the frame at `base`: nothing cleans it up, so that what it owned is still in
      hand. */
  lemma LandingHand(m: Machine, hand: seq<Value>)
    requires InvWith(m, hand) && m.k.base > 0 && m.k.HasFrame() && m.k.Cf().limbo == []
    requires m.k.Below().base > 0 && InNative(m.k.Below()) ==> m.k.pc == m.k.Cf().rPc
    ensures var m' := ClearArgs(BackFrom(m));
      && InvWith(m', hand + FrameValues(m.k)) && Calls(m'.k) == Calls(m.k)[1..] && m'.next == m.next
      && (m'.exception, m'.statics, m'.host) == (m.exception, m.statics, m.host)
      && m'.k == m.k.Below().(pc := m.k.pc, sp := m.k.Cf().rSbase) && Calls(m.k) != []
  {
    hide ChainOk, Accounted, LimboOk, CallsOk, Calls, OwnedValues, LimboObjects, Count, FrameValues, ClearArgs;
    BelowMoved(m.k, m.k.pc);
    OwnedOf(m.k);
    var m1, vs := BackFrom(m), FrameValues(m.k);
    CountAppendAll(vs, OwnedValues(m1.k));
    CountAppendAll(hand, vs);
    CallsTail(Calls(m.k), 1, m.next);
    assert Calls(m.k)[1..] == Calls(m1.k);
    assert LimboOk(m1) by { assert LimboObjects(m.k) == LimboObjects(m1.k); SameLimbo(m, m1); }
    Rebalance(m, hand, m1, hand + vs);
    ClearArgsOk'(m1, hand + vs);
    OnlyArgsCleared(m1);
  }

  lemma OwnedOf(k: Stack)
    requires ChainOk(k) && k.base > 0 && k.HasFrame()
    ensures OwnedValues(k) == FrameValues(k) + OwnedValues(k.Below())
    ensures LimboObjects(k) == k.Cf().limbo + LimboObjects(k.Below())
    ensures Calls(k) == [ActiveCall(k.base, k.Cf().(limbo := []))] + Calls(k.Below())
  {
    hide FrameValues;
  }

  lemma SameLimbo(m: Machine, m': Machine)
    requires LimboOk(m) && LimboObjects(m'.k) == LimboObjects(m.k) && m'.limboed == m.limboed
    ensures LimboOk(m')
  {
    hide LimboObjects;
  }

  lemma OnlyArgsCleared(m: Machine)
    ensures var m' := ClearArgs(m);
      && (m'.exception, m'.statics, m'.host, m'.limboed, m'.next)
         == (m.exception, m.statics, m.host, m.limboed, m.next)
      && (m'.k.heap, m'.k.base) == (m.k.heap, m.k.base)
  {
    hide Release;
  }

  /** The frame at `base` when `Landing` leaves it. */
  lemma LeftFrame(m: Machine, x: int) returns (m0: Machine)
    requires Inv(m) && m.k.base > 0 && m.k.HasFrame()
    ensures m0 == if x != XOK then ClearArgs(m) else m
    ensures Inv(m0) && m0.k == (if x == XOK then m.k else m.k.(sp := m.k.sbase)) && SameCalls(m, m0)
    ensures m0.k.HasFrame() && m0.k.Cf() == m.k.Cf() && m0.k.Below() == m.k.Below()
    ensures (m0.exception, m0.statics, m0.host, m0.limboed) == (m.exception, m.statics, m.host, m.limboed)
    ensures Landing(m, x) == ClearArgs(BackFrom(m0))
  {
    hide ChainOk, Accounted, LimboOk, CallsOk, Calls, OwnedValues, LimboObjects, ClearArgs;
    ClearArgsOk'(m, []);
    OnlyArgsCleared(m);
    m0 := if x != XOK then ClearArgs(m) else m;
  }

  /** The frame of the native function itself is always left clean when it failed, and was called by
      EEL code. */
  lemma OwnFrameFits(m: Machine, x: int)
    requires Inv(m) && InNative(m.k) && m.k.base > 0 && m.k.HasFrame()
    ensures !InNative(m.k.Below()) && (x != XOK || m.k.sp == m.k.sbase ==> LeavesNothing(m, x))
  {
    hide Accounted, LimboOk, CallsOk, LayoutChain, LinkChain, OwnedValues, LimboObjects, Calls;
    NativeCounter(m.k);
  }

  /** Nor is there anything to observe about the end of a native function at its own frame, other than
      that it has no arguments left over. */
  lemma HomeFits(m: Machine, call: ActiveCall, x: int, i: nat)
    requires Inv(m) && call in Calls(m.k) && call.cf.f.native && m.k.base == call.base
    requires x == XOK ==> m.k.sp == m.k.sbase && i < |m.host|
    requires x == XRETURN ==> m.k.HasFrame() && m.k.Below().HasFrame() && NothingWaiting(m.k.Below())
    ensures FinishFits(m, call, x, i)
  {
    hide Accounted, LimboOk, CallsOk, LayoutChain, LinkChain, OwnedValues, LimboObjects, Calls, LeavesNothing;
    SameCall(m.k, call);
    OwnFrameFits(m, x);
    NativeResultSlot(m.k);
  }

  /** The end of `call_c` leaves all references accounted for if and only if the frame at `base` has
      nothing to clean up, and if a native function called it then the program counter is right. */
  lemma LandingIff(m: Machine, x: int)
    requires Inv(m) && m.k.base > 0 && m.k.HasFrame()
    ensures Inv(Landing(m, x)) <==> LeavesNothing(m, x)
  {
    hide ChainOk, Accounted, CallsOk, Calls, OwnedValues, LimboObjects, FrameValues, ClearArgs, Count, LimboOk;
    var m0 := LeftFrame(m, x);
    if m.k.Cf().limbo != [] {
      LimboLost(m0);
    } else if m.k.Below().base > 0 && InNative(m.k.Below()) && m.k.pc != m.k.Cf().rPc {
      CounterLost(m0);
    } else {
      LandingHand(m0, []);
      assert [] + FrameValues(m0.k) == FrameValues(m0.k);
      HandIsNone(Landing(m, x), FrameValues(m0.k));
    }
  }

  lemma LimboLost(m: Machine)
    requires Inv(m) && m.k.base > 0 && m.k.HasFrame() && m.k.Cf().limbo != []
    ensures !Inv(ClearArgs(BackFrom(m)))
  {
    hide ChainOk, Accounted, CallsOk, Calls, OwnedValues, Count, ClearArgs;
    var o, limbo, rest := m.k.Cf().limbo[0], m.k.Cf().limbo, LimboObjects(m.k.Below());
    OwnedOf(m.k);
    AsRefsAppend(limbo, rest);
    CountAppend(AsRefs(limbo), AsRefs(rest), o);
    CountAsRefs(limbo, o);
    assert o in m.limboed && Count(AsRefs(rest), o) == 0 by {
      assert Count(AsRefs(LimboObjects(m.k)), o) == if o in m.limboed then 1 else 0;
    }
    var m1 := ClearArgs(BackFrom(m));
    OnlyArgsCleared(BackFrom(m));
    LimboHere(m1.k, m.k.Below());
    LimboMissing(m1, o);
  }

  lemma LimboMissing(m: Machine, o: Obj)
    requires o in m.limboed && Count(AsRefs(LimboObjects(m.k)), o) == 0
    ensures !LimboOk(m)
  {
    hide LimboObjects, Count;
  }

  lemma LimboHere(k: Stack, b: Stack)
    requires (k.heap, k.base) == (b.heap, b.base)
    ensures LimboObjects(k) == LimboObjects(b)
  {
  }

  lemma CounterLost(m: Machine)
    requires Inv(m) && m.k.base > 0 && m.k.HasFrame()
    requires m.k.Below().base > 0 && InNative(m.k.Below()) && m.k.pc != m.k.Cf().rPc
    ensures !Inv(ClearArgs(BackFrom(m)))
  {
    hide Accounted, CallsOk, Calls, OwnedValues, LimboOk, LimboObjects, LinksOk, LayoutOk, Release;
    BelowOk(m.k);
    NativeCounter(m.k.Below());
    var m1 := ClearArgs(BackFrom(m));
    if Inv(m1) { NativeCounter(m1.k); }
  }

  lemma NativeCounter(k: Stack)
    requires ChainOk(k) && k.base > 0 && InNative(k)
    ensures k.HasFrame() && k.pc == k.Cf().rPc && k.Vars() == [] && k.Cf().limbo == []
    ensures k.Below().base > 0 && !InNative(k.Below())
  {
    FrameBelowSp(k);
    assert LinksOk(k);
  }

  /** What is still active has what it needs to know which call it was. */
  lemma SameCall(k: Stack, call: ActiveCall)
    requires ChainOk(k) && call in Calls(k) && k.base == call.base
    ensures k.base > 0 && k.HasFrame() && call == ActiveCall(k.base, k.Cf().(limbo := []))
  {
    hide LayoutOk, LinksOk, ChainOk, Calls;
    var i :| 0 <= i < |Calls(k)| && Calls(k)[i] == call;
    FirstIsTop(k);
    BelowOk(k);
    if i > 0 { CallBases(k.Below(), i - 1); }
  }

  lemma FirstIsTop(k: Stack)
    requires ChainOk(k) && Calls(k) != []
    ensures k.base > 0 && k.HasFrame() && k.Below().base < k.base
    ensures Calls(k) == [ActiveCall(k.base, k.Cf().(limbo := []))] + Calls(k.Below())
  {
  }

  /** An exception code that arrives at the frame of a native function goes to whoever runs the
      interpreter. */
  lemma ThrowInNative(m: Machine, x: int)
    requires Inv(m) && InNative(m.k) && x != XOK && x != XRETURN
    ensures var r := ThrowCode(m, x);
      && r.Exit? && r.m.k == m.k && Inv(r.m) && SameCalls(m, r.m) && r.code == if x == XYIELD then XEND else x
  {
    hide ChainOk, Accounted, LimboOk, CallsOk, Calls, OwnedValues, LimboObjects, Release;
    PlainHand(m, [], Integer(x));
    SetExceptionKeeps(m, [], Integer(x));
  }

  /** All but the running call stay, and no call but the running one is new. */
  ghost predicate CallersStay(m: Machine, m': Machine) {
    && Calls(m.k) != []
    && (forall c :: c in Calls(m.k)[1..] && c.cf.f.native ==> c in Calls(m'.k))
    && (forall i :: 0 <= i < |Calls(m'.k)| && (i > 0 || Calls(m'.k)[i].cf.serial < m.next) ==>
          Calls(m'.k)[i] in Calls(m.k)[1..])
  }

  ghost predicate Returns(m: Machine, m': Machine) {
    Inv(m') && Evolves(m, m') && CallersStay(m, m')
  }

  lemma ReturnsThrough(m: Machine, m1: Machine, m': Machine)
    requires Calls(m.k) != [] && Calls(m1.k) == Calls(m.k)[1..] && m1.next == m.next
    requires Goes(m1, m')
    ensures Returns(m, m')
  {
    hide Calls, Inv;
    EvolvesTail(m, m1, 1);
    EvolvesTrans(m, m1, m');
    if Calls(m'.k) != [] && Calls(m'.k)[0].cf.serial < m.next {
      assert IsSuffix(Calls(m'.k)[0..], Calls(m1.k));
      assert Calls(m'.k)[0] == Calls(m'.k)[0..][0];
    }
  }

  lemma GoesSame(m: Machine, m': Machine)
    requires Inv(m') && SameCalls(m, m')
    ensures Goes(m, m')
  {
    hide Calls, Inv;
    EvolvesSame(m, m');
  }

  lemma Lands(m: Machine, x: int)
    requires Inv(m) && m.k.base > 0 && m.k.HasFrame() && LeavesNothing(m, x)
    ensures var m' := Landing(m, x);
      && Inv(m') && Calls(m.k) != [] && Calls(m'.k) == Calls(m.k)[1..] && m'.next == m.next
      && m'.k == m.k.Below().(pc := m.k.pc, sp := m.k.Cf().rSbase)
  {
    hide ChainOk, Accounted, LimboOk, CallsOk, Calls, OwnedValues, LimboObjects, FrameValues, ClearArgs;
    LandingIff(m, x);
    var m0 := LeftFrame(m, x);
    LandingHand(m0, []);
  }

  lemma FinishErrorOk(m: Machine, call: ActiveCall, x: int, i: nat)
    requires Inv(m) && FinishFits(m, call, x, i) && x != XOK
    ensures Returns(m, FinishNative(m, call, x, i).m)
  {
    hide ChainOk, Accounted, LimboOk, CallsOk, Calls, OwnedValues, LimboObjects, Landing, ThrowCode, LeavesNothing,
         Evolves, NativesStay, CallersStay;
    Lands(m, x);
    var m1 := Landing(m, x);
    if InNative(m1.k) {
      ThrowInNative(m1, x);
      GoesSame(m1, ThrowCode(m1, x).m);
    } else {
      if x == XRETURN { WaitingNothing(m1); }
      ThrowCodeOk(m1, x);
    }
    ReturnsThrough(m, m1, ThrowCode(m1, x).m);
  }

  lemma NativeResultSlot(k: Stack)
    requires ChainOk(k) && InNative(k) && k.base > 0 && k.HasFrame()
    ensures k.Cf().result >= 0 && FreeSlot(k, k.Cf().result)
  {
    assert LayoutOk(k) && LayoutChain(k.Below()) && LinksOk(k);
    if k.Cf().result == k.base {
      NativeSlot(k);
    } else {
      OwnsBelow(k, k.Cf().result);
    }
  }

  lemma {:induction false} FreeAbove(k: Stack, n: nat, slot: nat)
    requires ChainOk(k) && n <= |Calls(k)| && FreeSlot(Caller(k, n), slot)
    ensures FreeSlot(k, slot)
    decreases n
  {
    hide LinksOk;
    if n > 0 {
      FirstIsTop(k);
      BelowOk(k);
      FrameBelowSp(k);
      FreeAbove(k.Below(), n - 1, slot);
      assert LayoutOk(k) && LayoutChain(k.Below());
      OwnsBelow(k, slot);
    }
  }

  /** The result slot of an active native function is a register that owns nothing. */
  lemma ActiveResultSlot(k: Stack, call: ActiveCall)
    requires ChainOk(k) && call in Calls(k) && call.cf.f.native
    ensures 0 <= call.cf.result && FreeSlot(k, call.cf.result)
  {
    hide LayoutChain, LinkChain, Calls, Owns, Caller;
    var i :| 0 <= i < |Calls(k)| && Calls(k)[i] == call;
    CallerCalls(k, i);
    NativeResultSlot(Caller(k, i));
    FreeAbove(k, i, call.cf.result);
  }

  /** A native function puts its result where it is wanted. */
  lemma ResultWritten(m: Machine, call: ActiveCall, i: nat)
    requires Inv(m) && m.k.base > 0 && m.k.HasFrame() && call in Calls(m.k) && call.cf.f.native
    requires LeavesNothing(m, XOK) && i < |m.host|
    ensures var v, slot := m.host[i], call.cf.result; var m1 := WriteResult(HostLoses(m, i), slot, v);
      && 0 <= slot < |m1.k.heap| && m1.k.heap[slot] == Val(v) && InvWith(m1, [v]) && SameCalls(m, m1)
      && m1.k == m.k.(heap := m1.k.heap) && m1.k.HasFrame() && m1.k.Cf() == m.k.Cf()
      && m1.k.Below() == m.k.Below().(heap := m1.k.heap) && |m1.k.heap| == |m.k.heap|
      && (m.k.Below().base > 0 && InNative(m1.k.Below()) ==> InNative(m.k.Below()))
      && forall w :: w in FrameValues(m1.k) ==> !w.Ref?
  {
    hide ChainOk, Accounted, LimboOk, CallsOk, Calls, OwnedValues, LimboObjects, FrameValues, Count, Owns;
    var v, slot := m.host[i], call.cf.result;
    HostGivesOk(m, [], i);
    var m0 := HostLoses(m, i);
    assert [] + [v] == [v];
    ActiveResultSlot(m.k, call);
    WriteFreeOk(m0, [v], slot, v);
    FrameBelowSp(m.k);
    WriteKeepsFrame(m0, slot, v);
    var m1 := WriteResult(m0, slot, v);
    forall w | w in FrameValues(m1.k) ensures !w.Ref? {
      if w.Ref? {
        FrameUntouched(m.k, slot, v, w.o);
        CountPositive(FrameValues(m1.k), w.o);
        CountPositive(FrameValues(m.k), w.o);
      }
    }
  }

  lemma FrameUntouched(k: Stack, j: nat, v: Value, o: Obj)
    requires ChainOk(k) && FreeSlot(k, j)
    ensures Count(FrameValues(k.Write(j, v)), o) == Count(FrameValues(k), o)
  {
    hide FrameValues;
    FrameValuesWrite(k, j, v, o);
  }

  /** The result is in hand when the registers of the frame below are back. */
  lemma ResultLands(m: Machine, call: ActiveCall, i: nat)
    requires Inv(m) && m.k.base > 0 && m.k.HasFrame() && call in Calls(m.k) && call.cf.f.native
    requires LeavesNothing(m, XOK) && i < |m.host|
    ensures var v, slot := m.host[i], call.cf.result; var m1 := WriteResult(HostLoses(m, i), slot, v);
      var m2 := Landing(m1, XOK);
      && 0 <= slot < |m.k.heap| && m1.k.HasFrame() && m1.k.Below() == m.k.Below().(heap := m1.k.heap)
      && InvWith(m2, [v]) && Calls(m.k) != [] && Calls(m2.k) == Calls(m.k)[1..] && m2.next == m.next
      && m2.k.base > 0 && m2.k.HasFrame() && m2.k.Cf().f.native == InNative(m.k.Below()) && |m1.k.heap| == |m.k.heap|
  {
    hide ChainOk, Accounted, LimboOk, CallsOk, Calls, OwnedValues, LimboObjects, ClearArgs, FrameValues;
    ResultWritten(m, call, i);
    var v, slot := m.host[i], call.cf.result;
    var m1 := WriteResult(HostLoses(m, i), slot, v);
    HasCaller(m.k, call);
    HasCaller(m1.k, call);
    LandingHand(m1, [v]);
    CountAppendAll([v], FrameValues(m1.k));
    NoRefs(FrameValues(m1.k));
    HandSame(Landing(m1, XOK), [v] + FrameValues(m1.k), [v]);
    CallsNative(m.k.Below(), Landing(m1, XOK).k);
  }

  /** As long as a native function is active, there is a frame below the running one. */
  lemma HasCaller(k: Stack, call: ActiveCall)
    requires ChainOk(k) && call in Calls(k) && call.cf.f.native
    ensures k.base > 0 && k.HasFrame() && k.Below().base > 0 && k.Below().HasFrame()
    ensures Calls(k) == [ActiveCall(k.base, k.Cf().(limbo := []))] + Calls(k.Below()) && ChainOk(k.Below())
    ensures Calls(k.Below()) != []
  {
    hide LayoutOk, LinksOk, Calls;
    FirstIsTop(k);
    BelowOk(k);
    if k.Cf().f.native {
      NativeCounter(k);
    } else {
      assert call in Calls(k.Below());
      FirstIsTop(k.Below());
    }
    TopCall(k.Below());
  }

  /** Stacks with the same calls run the same function. */
  lemma CallsNative(k: Stack, k': Stack)
    requires ChainOk(k) && ChainOk(k') && Calls(k) == Calls(k') && Calls(k) != []
    ensures k'.base > 0 && k'.HasFrame() && k'.Cf().f.native == InNative(k)
  {
    hide ChainOk, Calls;
    FirstIsTop(k);
    FirstIsTop(k');
    assert Calls(k)[0].cf.f == k.Cf().f && Calls(k')[0].cf.f == k'.Cf().f;
  }

  lemma FinishResultOk(m: Machine, call: ActiveCall, i: nat)
    requires Inv(m) && FinishFits(m, call, XOK, i) && call in Calls(m.k) && call.cf.f.native && call.cf.f.results
    ensures var m' := FinishNative(m, call, XOK, i).m;
      Returns(m, m') && Calls(m'.k) == Calls(m.k)[1..]
  {
    hide ChainOk, Accounted, LimboOk, CallsOk, Calls, OwnedValues, LimboObjects, Landing, Receive, GiveUp, Evolves,
         NativesStay, CallersStay, WriteResult, LeavesNothing, Received;
    ResultLands(m, call, i);
    var v, w := m.host[i], Received(m, call, i);
    var m2 := Landing(WriteResult(HostLoses(m, i), call.cf.result, v), XOK);
    InHand(m2, v, w);
    assert [] + [w] == [w];
    GiveUpOk(m2, [], [w]);
    GiveUpCalls(m2, [w]);
    if w.Ref? { ReceiveOk(m2, [], w); } else { ReceivePlain(m2, v, w); }
    assert FinishNative(m, call, XOK, i).m in {GiveUp(m2, [w]), Receive(m2, w)};
    GoesSame(m2, GiveUp(m2, [w]));
    GoesSame(m2, Receive(m2, w));
    ReturnsThrough(m, m2, FinishNative(m, call, XOK, i).m);
  }

  /** When native code itself has called a native function and wants its result, the end of `call_c`
      receives that in the frame of native code, whose limbo list is never cleaned, or at the top
      level, where there is none. All references stay accounted for if and only if the result is no
      object, or one that is in limbo already. */
  lemma ReceiveInNative(m: Machine, v: Value)
    requires InvWith(m, [v]) && InNative(m.k)
    ensures Inv(Receive(m, v)) <==> (v.Ref? ==> v.o in m.limboed)
  {
    hide ChainOk, Accounted, LimboOk, CallsOk, Calls, OwnedValues, LimboObjects, SetLimbo;
    assert [] + [v] == [v];
    if v.Ref? && v.o in m.limboed {
      ReceiveAgain(m, [], v);
    } else {
      HandIsNone(m, [v]);
      if v.Ref? && m.k.HasFrame() { LimboInNative(m.k, v.o); }
    }
  }

  lemma LimboInNative(k: Stack, o: Obj)
    requires ChainOk(k) && InNative(k) && k.HasFrame()
    ensures !ChainOk(SetLimbo(k, [o] + k.Cf().limbo))
  {
    hide LayoutChain, LinkChain;
    var k' := SetLimbo(k, [o] + k.Cf().limbo);
    assert k'.HasFrame() && k'.Cf().limbo != [] && InNative(k') && k'.base > 0;
    if ChainOk(k') { NativeCounter(k'); }
  }

  /** What is in hand may be any value with the same object, or any without one. */
  lemma InHand(m: Machine, v: Value, w: Value)
    requires InvWith(m, [v]) && (v == w || (!v.Ref? && !w.Ref?))
    ensures InvWith(m, [w])
  {
    hide Inv, InvWith, Count;
    if v != w { PlainPair(v, w); HandSame(m, [v], [w]); }
  }

  lemma PlainPair(v: Value, w: Value)
    requires !v.Ref? && !w.Ref?
    ensures SameRefs([v], [w])
  {
    NoRefs([v]);
    NoRefs([w]);
  }

  lemma ReceivePlain(m: Machine, v: Value, w: Value)
    requires InvWith(m, [v]) && !v.Ref? && !w.Ref?
    ensures Inv(m) && Receive(m, w) == m
  {
    hide InvWith;
    HandIsNone(m, [v]);
  }

  lemma NoRefs(vs: seq<Value>)
    requires forall v :: v in vs ==> !v.Ref?
    ensures forall o: Obj :: Count(vs, o) == 0
  {
    forall o: Obj ensures Count(vs, o) == 0 { CountPositive(vs, o); }
  }

  lemma GiveUpCalls(m: Machine, vs: seq<Value>)
    ensures SameCalls(m, GiveUp(m, vs))
  {
  }

  /** A native function that may return leaves everything accounted for. */
  lemma FinishOk(m: Machine, call: ActiveCall, x: int, i: nat)
    requires Inv(m) && FinishFits(m, call, x, i) && call in Calls(m.k) && call.cf.f.native
    ensures Returns(m, FinishNative(m, call, x, i).m)
    ensures x == XOK ==> Calls(FinishNative(m, call, x, i).m.k) == Calls(m.k)[1..]
  {
    hide ChainOk, Accounted, LimboOk, CallsOk, Calls, OwnedValues, LimboObjects, Landing, ThrowCode, LeavesNothing,
         Evolves, NativesStay, CallersStay, Receive;
    if x != XOK {
      FinishErrorOk(m, call, x, i);
    } else if call.cf.f.results {
      FinishResultOk(m, call, i);
    } else {
      Lands(m, x);
      GoesSame(Landing(m, x), Landing(m, x));
      ReturnsThrough(m, Landing(m, x), Landing(m, x));
    }
  }

  // ---------------------------------------------------------------------------------------
  // Where it returns to
  // ---------------------------------------------------------------------------------------

  lemma CallerOrder(k: Stack)
    requires ChainOk(k) && k.base > 0 && k.HasFrame()
    ensures k.Cf().rBase <= k.Cf().rSbase <= k.Cf().rSp <= |k.heap|
  {
    FrameBelowSp(k);
    assert LayoutOk(k);
  }

  lemma LandedRegisters(m: Machine)
    requires m.k.HasFrame() && m.k.Cf().rSbase <= m.k.Cf().rSp <= |m.k.heap|
    ensures var m', cf := Landing(m, XOK), m.k.Cf();
      (m'.k.base, m'.k.sbase, m'.k.sp, m'.k.pc) == (cf.rBase, cf.rSbase, cf.rSbase, m.k.pc)
  {
    hide ClearArgs;
    ClearedRegisters(BackFrom(m));
  }

  /** A native function that returns without an exception returns from the frame at `base`, whether
      that is its own or not. */
  lemma FinishRegisters(m: Machine, call: ActiveCall, i: nat)
    requires Inv(m) && m.k.base > 0 && m.k.HasFrame() && call in Calls(m.k) && call.cf.f.native
    ensures var m', cf := FinishNative(m, call, XOK, i).m, m.k.Cf();
      (m'.k.base, m'.k.sbase, m'.k.sp, m'.k.pc) == (cf.rBase, cf.rSbase, cf.rSbase, m.k.pc)
  {
    hide ChainOk, Accounted, LimboOk, CallsOk, Calls, OwnedValues, LimboObjects, Landing, Receive, GiveUp;
    CallerOrder(m.k);
    FrameBelowSp(m.k);
    LandedRegisters(m);
    if call.cf.f.results && i < |m.host| {
      ActiveResultSlot(m.k, call);
      var m1 := WriteResult(HostLoses(m, i), call.cf.result, m.host[i]);
      WriteKeepsFrame(HostLoses(m, i), call.cf.result, m.host[i]);
      LandedRegisters(m1);
      var v := Received(m, call, i);
      GivenRegisters(Landing(m1, XOK), [v]);
      ReceivedRegisters(Landing(m1, XOK), v);
    }
  }

  lemma GivenRegisters(m: Machine, vs: seq<Value>)
    ensures GiveUp(m, vs).k == m.k
  {
  }

  lemma ReceivedRegisters(m: Machine, v: Value)
    ensures var m' := Receive(m, v);
      (m'.k.base, m'.k.sbase, m'.k.sp, m'.k.pc) == (m.k.base, m.k.sbase, m.k.sp, m.k.pc)
  {
  }
}
