/** Where native code gets control back from EEL code: with `base` at the frame of its own function,
    unless the EEL code threw XEND, or an UNTRY block stopped the search for a handler. */
module StrayExits {
  import opened Values
  import opened ObjectStore
  import opened CallStack
  import opened Frames
  import opened MachineState
  import opened CallLinks
  import opened Instructions
  import opened NativeCode
  import opened LeavingCalls
  import opened Unwinding
  import opened Safety
  import opened ExceptionFlow
  import opened Steps
  import opened NativeSteps
  import opened Runs
  import opened CallTheorems
  import opened ExceptionTheorems
  import opened CutCalls

  // ---------------------------------------------------------------------------------------
  // Exits
  // ---------------------------------------------------------------------------------------

  /** The search for a handler for code `x` ends at the frame of an UNTRY block. */
  ghost predicate StopsAtUntry(calls: seq<ActiveCall>, x: int) {
    exists n :: 0 <= n < |calls| && calls[n].cf.mark.untry && forall i :: 0 <= i < n ==> Passes(calls[i].cf, x)
  }

  /** The instruction makes the interpreter exit without having returned to native code. */
  ghost predicate OpStrays(m: Machine, i: Instr, code: int) {
    || (i.Throw? && m.Reg(i.a) == Integer(XEND))
    || (code != XEND && StopsAtUntry(Calls(m.k), code))
  }

  ghost predicate Strays(s: Session, step: Step) {
    var r := Effect(s, step);
    match step
    case Op(i) => r.Exit? && OpStrays(s.m, i, r.code)
    case Native(_) => false
    case Finish(x, _) =>
      && r.Exit? && Calls(s.m.k) != []
      && (x == XEND || (r.code != XEND && StopsAtUntry(Calls(s.m.k)[1..], r.code)))
  }

  /** Only native functions that are active and have not returned have frames, and native code is in
      control exactly when `base` is at the frame of one, or at the top level. */
  ghost predicate Settled(s: Session) {
    && Sound(s)
    && (s.running <==> !InNative(s.m.k))
    && (forall c :: c in Calls(s.m.k) && c.cf.f.native ==> c in s.natives)
  }

  /** What a step that leaves the interpreter does: no call is made, and the frame that `base` ends up
      at is one of native code if `home`. */
  ghost predicate ExitsAt(m: Machine, r: Outcome, home: bool) {
    r.Exit? ==> r.m.next == m.next && (InNative(r.m.k) <==> home)
  }

  lemma FirstStop(calls: seq<ActiveCall>, x: int, n: nat)
    requires n <= |calls| && (forall i :: 0 <= i < n ==> Passes(calls[i].cf, x))
    requires n < |calls| ==> !Passes(calls[n].cf, x)
    ensures StopsAtUntry(calls, x) <==> n < |calls| && calls[n].cf.mark.untry
  {
  }

  lemma HandleExits(m: Machine, x: int)
    requires Inv(m) && !InNative(m.k)
    ensures var r := HandleX(m, x);
      ExitsAt(m, r, !StopsAtUntry(Calls(m.k), x)) && (r.Exit? ==> r.code == x)
  {
    hide ChainOk, Accounted, LimboOk, CallsOk, Calls, OwnedValues, LimboObjects, HandleX, SameBelow, CutValues,
         Release, StopsAtUntry;
    var n := ExceptionGoes(m, x);
    FirstStop(Calls(m.k), x, n);
    var r := HandleX(m, x);
    if r.Exit? {
      NextKept(m, x);
      if n < |Calls(m.k)| {
        assert Calls(m.k)[n..][0] == Calls(m.k)[n];
        PlainNative(m.k, n);
        TopIs(r.m.k);
      } else {
        NoCalls(r.m.k);
      }
    }
  }

  lemma NextKept(m: Machine, x: int)
    requires Inv(m) && HandleX(m, x).Exit?
    ensures HandleX(m, x).m.next == m.next
  {
    hide ChainOk, Accounted, LimboOk, CallsOk, Calls, OwnedValues, LimboObjects, SameBelow, Unwind, Caller,
         FindHandler;
    var n := HandlerFound(m.k, x);
    UnwindOk(m, [], n);
  }

  /** Native functions have no marks. */
  lemma PlainNative(k: Stack, n: nat)
    requires ChainOk(k) && n < |Calls(k)|
    ensures Calls(k)[n].cf.f.native ==> !Calls(k)[n].cf.mark.untry
  {
    hide ChainOk, LayoutChain, LinkChain, Calls, Caller;
    CallerCalls(k, n);
    MarkOfTop(Caller(k, n));
  }

  lemma MarkOfTop(k: Stack)
    requires ChainOk(k) && k.base > 0 && k.HasFrame()
    ensures k.Cf().f.native ==> k.Cf().mark == PLAIN
  {
    assert LinksOk(k);
  }

  lemma TopIs(k: Stack)
    requires ChainOk(k) && Calls(k) != []
    ensures InNative(k) <==> Calls(k)[0].cf.f.native
  {
    FirstIsTop(k);
  }

  lemma NoCalls(k: Stack)
    requires Calls(k) == []
    ensures InNative(k)
  {
  }

  lemma ReturnExits(m: Machine)
    requires !InNative(m.k) && InvWith(m, Waiting(m.k, m.k.Cf().result))
    ensures var r := ReturnX(m); ExitsAt(m, r, true) && (r.Exit? ==> r.code == XEND)
  {
    hide ChainOk, Accounted, LimboOk, CallsOk, Calls, OwnedValues, LimboObjects, ReturnX;
    var n := FunctionFrameFound(m.k);
    TopCall(m.k);
    var m1 := ReturnXUnwound(m, Waiting(m.k, m.k.Cf().result), n);
    DeliverExits(m1, m.k.Cf().result);
  }

  lemma DeliverExits(m: Machine, result: int)
    ensures var r := Deliver(m, result); ExitsAt(m, r, true) && (r.Exit? ==> r.code == XEND)
  {
  }

  lemma ThrowExits(m: Machine, x: int)
    requires !InNative(m.k) && InvWith(m, if x == XRETURN then Waiting(m.k, m.k.Cf().result) else [])
    ensures var r := ThrowCode(m, x);
      && ExitsAt(m, r, x != XEND && (x == XRETURN || !StopsAtUntry(Calls(m.k), x)))
      && (r.Exit? ==> r.code == if x == XRETURN then XEND else x)
  {
    hide ChainOk, Accounted, LimboOk, CallsOk, Calls, OwnedValues, LimboObjects, ReturnX, HandleX, StopsAtUntry,
         SetException;
    var hand := if x == XRETURN then Waiting(m.k, m.k.Cf().result) else [];
    PlainHand(m, hand, Integer(x));
    SetExceptionKeeps(m, hand, Integer(x));
    SetExceptionValue(m, Integer(x));
    var m1 := SetException(m, Integer(x));
    if x == XRETURN {
      ReturnExits(m1);
    } else if x !in {XOK, XYIELD, XEND} {
      HandleExits(m1, x);
    }
  }

  // ---------------------------------------------------------------------------------------
  // Instructions
  // ---------------------------------------------------------------------------------------

  /** What is known of the outcome of an instruction: where it exits, and that it does not go on at
      the frame of a native function that was active before. */
  ghost predicate OpOutcome(m: Machine, i: Instr, r: Outcome) {
    && ExitsAt(m, r, r.Exit? ==> !OpStrays(m, i, r.code))
    && (r.Continue? ==> !InNative(r.m.k) || r.m.k.base >= m.k.base)
  }

  lemma ThrowOutcome(m: Machine, i: Instr, x: int)
    requires !InNative(m.k) && InvWith(m, if x == XRETURN then Waiting(m.k, m.k.Cf().result) else [])
    requires !i.Throw? && x != XEND
    ensures OpOutcome(m, i, ThrowCode(m, x))
  {
    hide ChainOk, Accounted, LimboOk, CallsOk, Calls, OwnedValues, LimboObjects, ThrowCode, StopsAtUntry, Evolves,
         NativesStay;
    ThrowExits(m, x);
    ThrowCodeOk(m, x);
  }

  lemma ArgumentOutcome(m: Machine, i: Instr)
    requires Inv(m) && !InNative(m.k) && (i.GetArgI? || i.SetArgI?)
    ensures OpOutcome(m, i, PerformValue(m, i))
  {
    hide ChainOk, Accounted, LimboOk, CallsOk, Calls, OwnedValues, LimboObjects, ThrowCode, StopsAtUntry, Release, Own,
         DefaultOf;
    ThrowOutcome(m, i, XHIGHINDEX);
  }

  lemma ItemOutcome(m: Machine, i: Instr)
    requires Inv(m) && !InNative(m.k) && (i.IndGet? || i.IndSet?)
    ensures OpOutcome(m, i, PerformValue(m, i))
  {
    hide ChainOk, Accounted, LimboOk, CallsOk, Calls, OwnedValues, LimboObjects, ThrowCode, StopsAtUntry, Release, Own,
         Stored, IndexOf;
    ThrowOutcome(m, i, XHIGHINDEX);
    ThrowOutcome(m, i, XWRONGINDEX);
    ThrowOutcome(m, i, XNOMETAMETHOD);
    ThrowOutcome(m, i, XCANTINDEX);
    ThrowOutcome(m, i, XWRONGTYPE);
    ThrowOutcome(m, i, XLOWINDEX);
  }

  lemma ValueOutcome(m: Machine, i: Instr)
    requires Inv(m) && !InNative(m.k) && !IsControl(i)
    ensures OpOutcome(m, i, PerformValue(m, i))
  {
    hide ChainOk, Accounted, LimboOk, CallsOk, Calls, OwnedValues, LimboObjects, StopsAtUntry, Release, Own, Grow,
         UvBase, Construct, Arguments, GetItem, SetItem, ThrowCode;
    if i.GetArgI? || i.SetArgI? {
      ArgumentOutcome(m, i);
    } else if i.IndGet? || i.IndSet? {
      ItemOutcome(m, i);
    }
  }

  lemma EnterOutcome(m: Machine, i: Instr, f: Function, result: int, levels: nat, mark: Mark)
    requires Inv(m) && !InNative(m.k) && CanEnter(m, f, result, levels, mark)
    ensures OpOutcome(m, i, Continue(Enter(m, f, result, levels, mark)))
  {
    hide ChainOk, Accounted, LimboOk, CallsOk, Calls, OwnedValues, LimboObjects, Enter, CanEnter;
    EnterFrame(m, f, result, levels, mark);
  }

  lemma CallOutcome(m: Machine, i: Instr, f: Function, result: int, levels: nat)
    requires Inv(m) && !InNative(m.k) && ((result >= 0 ==> f.results) ==> CalledAs(m, f, levels)) && !i.Throw?
    requires result == -1 || (result >= 0 && FreeSlot(m.k, result))
    ensures OpOutcome(m, i, CallFunction(m, f, result, levels))
  {
    hide ChainOk, Accounted, LimboOk, CallsOk, Calls, OwnedValues, LimboObjects, Enter, ThrowCode, FreeSlot, OpOutcome,
         CalledAs, CanEnter;
    if result >= 0 && !f.results {
      ThrowOutcome(m, i, XNORESULT);
    } else {
      FunctionEnters(m, f, result, levels);
      EnterOutcome(m, i, f, result, if f.native then 0 else levels, PLAIN);
    }
  }

  lemma CallValueOutcome(m: Machine, i: Instr, callee: Value, result: int)
    requires Inv(m) && !InNative(m.k) && ValueCallFits(m, callee, result >= 0) && !i.Throw?
    requires result == -1 || (result >= 0 && FreeSlot(m.k, result))
    ensures OpOutcome(m, i, CallValue(m, callee, result))
  {
    hide ChainOk, Accounted, LimboOk, CallsOk, Calls, OwnedValues, LimboObjects, CallFunction, ThrowCode, FreeSlot,
         CalledAs, OpOutcome;
    match callee
    case Callable(f) =>
      var x := PassedCode(m, f);
      if x != XOK {
        ThrowOutcome(m, i, x);
      } else {
        if result >= 0 ==> f.results { FittingCall(m, f); }
        CallOutcome(m, i, f, result, 0);
      }
    case Ref(_) => ThrowOutcome(m, i, XNEEDCALLABLE);
    case _ => ThrowOutcome(m, i, XNEEDOBJECT);
  }

  lemma ReturnOutcome(m: Machine, i: Instr, result: int)
    requires !InNative(m.k) && m.k.sp == m.k.sbase && (result == -1 || result == m.k.Cf().result)
    requires InvWith(m, Waiting(m.k, result)) && !i.Throw?
    ensures OpOutcome(m, i, ReturnWith(m, result))
  {
    hide ChainOk, Accounted, LimboOk, CallsOk, Calls, OwnedValues, LimboObjects, Deliver, ClearArgs, Leave,
         CleanLimbo, CleanVars, Evolves, NativesStay, StopsAtUntry;
    ReturnWithOk(m, result);
    var m1 := ReturnLeft(m, result);
    DeliverExits(m1, result);
  }

  lemma BlockOutcome(m: Machine, i: Instr, f: Function, handler: Option<Function>, untry: bool)
    requires Inv(m) && !InNative(m.k) && BlockFits(m, f)
    requires handler.Some? ==> HandlerFits(handler.value, m.k.Cf())
    ensures OpOutcome(m, i, Continue(EnterBlock(m, f, handler, untry)))
  {
    hide ChainOk, Accounted, LimboOk, CallsOk, Calls, OwnedValues, LimboObjects, Enter, BlockFits, HandlerFits,
         CanEnter, OpOutcome;
    var mark := Mark(true, false, untry, handler);
    BlockEnters(m, f, mark);
    EnterOutcome(m, i, f, m.k.Cf().result, 0, mark);
  }

  /** THROW, once its value is in the exception register. */
  lemma RaisedOutcome(m: Machine, i: Instr)
    requires Inv(m) && !InNative(m.k) && i.Throw? && m.Reg(i.a) == m.exception
    requires m.exception == Integer(XRETURN) ==> NothingWaiting(m.k)
    ensures OpOutcome(m, i, Reschedule(m))
  {
    hide ChainOk, Accounted, LimboOk, CallsOk, Calls, OwnedValues, LimboObjects, ReturnX, HandleX, StopsAtUntry,
         Evolves, NativesStay;
    var x := ExceptionCode(m.exception);
    if x == XRETURN {
      WaitingNothing(m);
      ReturnExits(m);
    } else if x !in {XOK, XYIELD, XEND} {
      HandleExits(m, x);
    }
    RescheduleOk(m);
  }

  lemma ThrownOutcome(m: Machine, i: Instr, v: Value)
    requires Inv(m) && !InNative(m.k) && i.Throw? && v == m.Reg(i.a) && KeepsOwner(m, v, m.exception)
    requires v == Integer(XRETURN) ==> NothingWaiting(m.k)
    ensures OpOutcome(m, i, Reschedule(TakeRef(GiveUp(m, [m.exception]), v).(exception := v)))
  {
    hide ChainOk, Accounted, LimboOk, CallsOk, Calls, OwnedValues, LimboObjects, Release, Own, Reschedule,
         StopsAtUntry, KeepsOwner;
    RaisedOk(m, v);
    RaisedOutcome(TakeRef(GiveUp(m, [m.exception]), v).(exception := v), i);
  }

  /** RETURNR and RETXR. */
  lemma CopiedOutcome(m: Machine, i: Instr, v: Value, plain: bool)
    requires Inv(m) && !InNative(m.k) && Rooted(m, v) && (plain ==> m.k.sp == m.k.sbase) && !i.Throw?
    ensures var mc := CopyResult(m, v);
      OpOutcome(m, i, if plain then ReturnWith(mc, m.k.Cf().result) else ThrowCode(mc, XRETURN))
  {
    hide ChainOk, Accounted, LimboOk, CallsOk, Calls, OwnedValues, LimboObjects, Rooted, CopyResult, ReturnWith,
         ThrowCode, StopsAtUntry;
    CopyResultOk(m, v);
    TopResult(m.k);
    var mc := CopyResult(m, v);
    if plain { ReturnOutcome(mc, i, m.k.Cf().result); } else { ThrowOutcome(mc, i, XRETURN); }
  }

  lemma ControlOutcome(m: Machine, i: Instr)
    requires Inv(m) && !InNative(m.k) && IsControl(i) && WellCoded(m, i)
    ensures OpOutcome(m, i, PerformControl(m, i))
  {
    hide ChainOk, Accounted, LimboOk, CallsOk, Calls, OwnedValues, LimboObjects, Owns, Count, UvBase, Roots, Temp,
         WellFormedFunction, HandlerFits, BlockFits, CalledAs, Rooted, KeepsOwner, FreeSlot, CallValue, CallFunction,
         ReturnWith, EnterBlock, Reschedule, ThrowCode, CopyResult, Leave, CleanLimbo, CleanVars, TakeRef, GiveUp,
         OpOutcome;
    var base := m.k.base;
    match i
    case Call(a) => CallValueOutcome(m, i, m.Reg(a), -1);
    case CallR(a, b) => TempIsFree(m, b); CallValueOutcome(m, i, m.Reg(a), base + b);
    case CCall(levels, f) => CallOutcome(m, i, f, -1, levels);
    case CCallR(levels, b, f) => TempIsFree(m, b); CallOutcome(m, i, f, base + b, levels);
    case Return => ReturnOutcome(m, i, -1);
    case ReturnR(a) => CopiedOutcome(m, i, m.Reg(a), true);
    case Try(handler, f) => BlockOutcome(m, i, f, Some(handler), false);
    case Untry(f) => BlockOutcome(m, i, f, None, true);
    case Throw(a) => ThrownOutcome(m, i, m.Reg(a));
    case Retry => RetryOutcome(m, i);
    case RetX => ThrowOutcome(m, i, XRETURN);
    case RetXR(a) => CopiedOutcome(m, i, m.Reg(a), false);
  }

  lemma RetryOutcome(m: Machine, i: Instr)
    requires Inv(m) && !InNative(m.k) && m.k.sp == m.k.sbase && m.k.Cf().mark.isCatcher
    ensures var m1 := Leave(CleanLimbo(CleanVars(m, 0)));
      OpOutcome(m, i, Continue(m1.(k := m1.k.(pc := if m1.k.pc >= TRY_SIZE then m1.k.pc - TRY_SIZE else 0))))
  {
    hide ChainOk, Accounted, LimboOk, CallsOk, Calls, OwnedValues, LimboObjects, Leave, CleanLimbo, CleanVars,
         SameBelow;
    RetryOk(m);
  }

  lemma InstructionOutcome(m: Machine, i: Instr)
    requires Inv(m) && CanExecute(m, i)
    ensures OpOutcome(m, i, Exec(m, i))
  {
    hide ChainOk, Accounted, LimboOk, CallsOk, Calls, OwnedValues, LimboObjects, PerformValue, PerformControl,
         ValueCoded, ControlCoded, StopsAtUntry;
    var m0 := Advance(m, Size(i));
    AdvanceSame(m, Size(i));
    assert forall a: nat :: m0.Reg(a) == m.Reg(a);
    if IsControl(i) {
      AdvanceControl(m, Size(i), i);
      ControlOutcome(m0, i);
    } else {
      AdvanceValue(m, Size(i), i);
      ValueOutcome(m0, i);
    }
  }

  // ---------------------------------------------------------------------------------------
  // Native code
  // ---------------------------------------------------------------------------------------

  /** While everything is settled, native code finds `base` at its own frame. */
  lemma SettledHome(s: Session)
    requires Settled(s) && !s.running
    ensures s.AtHome() && (s.natives == [] ==> Calls(s.m.k) == [])
    ensures s.natives != [] ==> s.m.k.base > 0 && s.m.k.HasFrame() && Calls(s.m.k)[..1] == [s.natives[0]]
  {
    hide ChainOk, Accounted, LimboOk, Calls, CallsOk;
    if Calls(s.m.k) != [] {
      TopIs(s.m.k);
      FirstIsTop(s.m.k);
      Innermost(Calls(s.m.k), s.natives, s.m.next);
    } else {
      NoFrames(s.m.k);
      HasFirst(s.natives);
    }
  }

  /** The innermost native function is the running call, if that is one of a native function. */
  lemma Innermost(calls: seq<ActiveCall>, natives: seq<ActiveCall>, next: nat)
    requires CallsOk(calls, next) && calls != [] && calls[0] in natives
    requires forall c :: c in natives ==> c in calls
    requires forall i, j :: 0 <= i < j < |natives| ==> natives[j].cf.serial < natives[i].cf.serial
    ensures natives != [] && natives[0] == calls[0]
  {
    hide UplinkOk;
    var j :| 0 <= j < |natives| && natives[j] == calls[0];
    assert natives[0] in calls;
    var p :| 0 <= p < |calls| && calls[p] == natives[0];
    assert p == 0;
  }

  lemma HasFirst(calls: seq<ActiveCall>)
    ensures calls == [] || calls[0] in calls
  {
  }

  lemma NoFrames(k: Stack)
    requires ChainOk(k) && Calls(k) == []
    ensures k.base == 0
  {
    if k.base > 0 { TopCall(k); }
  }

  lemma OpBase(m: Machine, op: NativeOp)
    requires !(op.Invoke? && NativeExec(m, op).Continue?)
    ensures NativeExec(m, op).m.k.base == m.k.base && NativeExec(m, op).m.next == m.next
  {
    hide Release, Own, Construct, Grow, CheckArgs;
  }

  lemma InvokedEel(m: Machine, f: Function)
    requires Inv(m) && WellBehaved(m, Invoke(f)) && InvokeFunction(m, f).Continue?
    ensures !InNative(InvokeFunction(m, f).m.k)
  {
    hide ChainOk, Accounted, LimboOk, CallsOk, Calls, OwnedValues, LimboObjects, FreeSlot, Enter, SetException,
         WellFormedFunction, Evolves, NativesStay, PassedCode, ResetArgs, FirstIsFree, CanEnter;
    InvokeEnters(m, f);
    EnterFrame(m, f, if m.Reg(0) != Nil && f.results then m.k.base else -1, 0, PLAIN);
  }

  /** As long as `base` is where it was, native code is where it was. */
  lemma StillNative(s: Session, m': Machine)
    requires Settled(s) && !s.running && Goes(s.m, m') && m'.k.base == s.m.k.base
    ensures InNative(m'.k)
  {
    hide ChainOk, Accounted, LimboOk, Calls, CallsOk, NativesActive, Settled, Evolves;
    SettledHome(s);
    if s.natives != [] {
      SettledNative(s);
      assert s.natives[0] in Calls(m'.k);
      SameCall(m'.k, s.natives[0]);
    }
  }

  lemma SettledNative(s: Session)
    requires Settled(s) && s.natives != []
    ensures s.natives[0].cf.f.native && s.natives[0] in Calls(s.m.k)
  {
    hide Inv, Calls;
  }

  /** The end of a native function: EEL code goes on, or the interpreter exits. */
  lemma FinishOutcome(s: Session, x: int, ref: nat)
    requires Settled(s) && Allowed(s, Finish(x, ref))
    ensures var r := FinishNative(s.m, s.natives[0], x, ref);
      && Calls(s.m.k) != []
      && ExitsAt(s.m, r, x != XEND && (r.Exit? && r.code != XEND ==> !StopsAtUntry(Calls(s.m.k)[1..], r.code)))
      && (r.Continue? ==> !InNative(r.m.k))
  {
    hide ChainOk, Accounted, LimboOk, CallsOk, Calls, OwnedValues, LimboObjects, Landing, ThrowCode, LeavesNothing,
         Evolves, NativesStay, CallersStay, StopsAtUntry, FinishNative, NativesActive, Settled;
    var m, call := s.m, s.natives[0];
    SettledHome(s);
    SettledNative(s);
    SettledIn(s);
    OwnFrameFits(m, x);
    Lands(m, x);
    if x != XOK {
      var m1 := Landing(m, x);
      assert FinishNative(m, call, x, ref) == ThrowCode(m1, x) by { FailedIs(m, call, x, ref); }
      if x == XRETURN { WaitingNothing(m1); }
      ThrowExits(m1, x);
      ThrowCodeOk(m1, x);
    } else {
      FinishedIs(m, call, ref);
      FinishRegisters(m, call, ref);
      FinishOk(m, call, x, ref);
      var m' := FinishNative(m, call, x, ref).m;
      EelCalls(Landing(m, x).k);
      TopIs(Landing(m, x).k);
      TopIs(m'.k);
    }
  }

  lemma SettledIn(s: Session)
    requires Settled(s) && !s.running
    ensures InNative(s.m.k) && Inv(s.m)
  {
    hide Inv, Calls;
  }

  lemma EelCalls(k: Stack)
    requires ChainOk(k) && !InNative(k)
    ensures Calls(k) != []
  {
    hide ChainOk, Calls;
    TopCall(k);
  }

  lemma FailedIs(m: Machine, call: ActiveCall, x: int, ref: nat)
    requires x != XOK
    ensures FinishNative(m, call, x, ref) == ThrowCode(Landing(m, x), x)
  {
    hide Landing, ThrowCode;
  }

  lemma FinishedIs(m: Machine, call: ActiveCall, ref: nat)
    ensures FinishNative(m, call, XOK, ref).Continue?
  {
    hide Landing, ThrowCode;
  }

  // ---------------------------------------------------------------------------------------
  // Sessions
  // ---------------------------------------------------------------------------------------

  /** While everything is settled, a step that leaves the interpreter leaves `base` at the frame of
      native code, or at the top level, unless the step throws XEND or the search for a handler
      stops at an UNTRY block. */
  lemma ExitWhere(s: Session, step: Step)
    requires Settled(s) && Allowed(s, step) && Effect(s, step).Exit?
    ensures InNative(Effect(s, step).m.k) <==> !Strays(s, step)
    ensures Effect(s, step).m.next == s.m.next
  {
    hide Inv, NativesActive, Calls, Exec, NativeExec, FinishNative, CanExecute, WellBehaved, FinishFits, StopsAtUntry,
         Settled, InNative;
    SettledSound(s);
    match step
    case Op(i) => InstructionOutcome(s.m, i);
    case Native(op) =>
      NativeOk(s.m, op);
      OpBase(s.m, op);
      StillNative(s, NativeExec(s.m, op).m);
    case Finish(x, ref) => FinishOutcome(s, x, ref);
  }

  lemma SettledSound(s: Session)
    requires Settled(s)
    ensures Sound(s)
  {
    hide Inv, Calls;
  }

  /** If the running call is not new then it was active before. */
  lemma OldTop(m: Machine, m': Machine)
    requires Inv(m') && Evolves(m, m') && Calls(m'.k) != [] && Calls(m'.k)[0].cf.serial < m.next
    ensures Calls(m'.k)[0] in Calls(m.k)
  {
    hide Inv, Calls;
    assert IsSuffix(Calls(m'.k)[0..], Calls(m.k));
    assert Calls(m'.k)[0] == Calls(m'.k)[0..][0];
  }

  lemma OldSerial(m: Machine)
    requires Inv(m) && Calls(m.k) != []
    ensures Calls(m.k)[0].cf.serial < m.next
  {
    hide ChainOk, Calls;
  }

  ghost predicate Listed(m: Machine, natives: seq<ActiveCall>) {
    forall c :: c in Calls(m.k) && c.cf.f.native ==> c in natives
  }

  lemma NoneNew(s: Session, m': Machine)
    requires Settled(s) && Goes(s.m, m') && (!InNative(m'.k) || m'.next == s.m.next)
    ensures Listed(m', s.natives)
  {
    hide ChainOk, Accounted, LimboOk, Calls, CallsOk, NativesActive, Evolves;
    if Calls(m'.k) != [] {
      TopIs(m'.k);
      if m'.next == s.m.next {
        OldSerial(m');
        OldTop(s.m, m');
      }
    }
  }

  lemma OneEnded(s: Session, m': Machine)
    requires Settled(s) && !s.running && s.natives != [] && Returns(s.m, m')
    requires !InNative(m'.k) || m'.next == s.m.next
    ensures Listed(m', s.natives[1..])
  {
    hide ChainOk, Accounted, LimboOk, Calls, NativesActive, Evolves, CallsOk;
    SettledHome(s);
    assert Calls(s.m.k)[0] == Calls(s.m.k)[..1][0];
    OthersListed(Calls(s.m.k), s.natives, s.m.next);
    if Calls(m'.k) != [] {
      TopIs(m'.k);
      if m'.next == s.m.next { OldSerial(m'); }
    }
  }

  lemma OthersListed(calls: seq<ActiveCall>, natives: seq<ActiveCall>, next: nat)
    requires CallsOk(calls, next) && calls != [] && natives != [] && calls[0] == natives[0]
    requires forall c :: c in calls && c.cf.f.native ==> c in natives
    ensures forall c :: c in calls[1..] && c.cf.f.native ==> c in natives[1..]
  {
    hide UplinkOk;
    forall c | c in calls[1..] && c.cf.f.native ensures c in natives[1..] {
      var i :| 0 <= i < |calls[1..]| && calls[1..][i] == c;
      assert c == calls[i + 1];
      assert natives == [natives[0]] + natives[1..];
    }
  }

  /** An instruction does not go on at the frame of a native function that was active before. */
  lemma NotBackInNative(m: Machine, m': Machine)
    requires Inv(m) && !InNative(m.k) && Goes(m, m') && !StartsNative(m, m')
    requires !InNative(m'.k) || m'.k.base >= m.k.base
    ensures !InNative(m'.k)
  {
    hide ChainOk, Accounted, LimboOk, Calls, CallsOk, NativesStay, Evolves, LayoutChain, LinkChain;
    if m'.k.base > 0 {
      FirstIsTop'(m'.k);
      TopIs(m'.k);
      if Calls(m'.k)[0].cf.serial < m.next {
        OldTop(m, m');
        var c := Calls(m'.k)[0];
        var p :| 0 <= p < |Calls(m.k)| && Calls(m.k)[p] == c;
        CallBases(m.k, p);
        if c.base == m.k.base { SameCall(m.k, c); }
      }
    }
  }

  lemma FirstIsTop'(k: Stack)
    requires ChainOk(k) && k.base > 0
    ensures k.HasFrame() && Calls(k) != [] && Calls(k)[0] == ActiveCall(k.base, k.Cf().(limbo := []))
  {
    hide ChainOk, Calls;
    TopCall(k);
  }

  lemma OpSettles(s: Session, i: Instr)
    requires Settled(s) && Allowed(s, Op(i)) && Exec(s.m, i).Continue?
    ensures Settled(Execute(s, Op(i)))
  {
    hide ChainOk, Accounted, LimboOk, Calls, CallsOk, NativesActive, Exec, WellCoded, StopsAtUntry, Evolves;
    StepKeepsInvariant(s, Op(i));
    InstructionOk(s.m, i);
    InstructionOutcome(s.m, i);
    var m' := Exec(s.m, i).m;
    if StartsNative(s.m, m') {
      TopCall(m'.k);
      NativeCounter(m'.k);
    } else {
      NotBackInNative(s.m, m');
      NoneNew(s, m');
    }
  }

  lemma InvokeIs(m: Machine, f: Function)
    ensures NativeExec(m, Invoke(f)) == InvokeFunction(m, f)
  {
    hide InvokeFunction;
  }

  lemma NativeSettles(s: Session, op: NativeOp)
    requires Settled(s) && Allowed(s, Native(op))
    ensures Settled(Execute(s, Native(op)))
  {
    hide ChainOk, Accounted, LimboOk, Calls, CallsOk, NativesActive, NativeExec, WellBehaved, Evolves, NativesStay,
         InvokeFunction, InNative;
    StepKeepsInvariant(s, Native(op));
    NativeOk(s.m, op);
    var r := NativeExec(s.m, op);
    if op.Invoke? && r.Continue? {
      InvokeIs(s.m, op.f);
      InvokedEel(s.m, op.f);
    } else {
      OpBase(s.m, op);
      StillNative(s, r.m);
    }
    NoneNew(s, r.m);
  }

  lemma FinishSettles(s: Session, x: int, ref: nat)
    requires Settled(s) && Allowed(s, Finish(x, ref)) && !Strays(s, Finish(x, ref))
    ensures Settled(Execute(s, Finish(x, ref)))
  {
    hide ChainOk, Accounted, LimboOk, Calls, CallsOk, NativesActive, FinishNative, FinishFits, Evolves, CallersStay,
         InNative, StopsAtUntry;
    StepKeepsInvariant(s, Finish(x, ref));
    FinishOutcome(s, x, ref);
    SettledNative(s);
    FinishOk(s.m, s.natives[0], x, ref);
    OneEnded(s, FinishNative(s.m, s.natives[0], x, ref).m);
  }

  lemma OpExitSettles(s: Session, i: Instr)
    requires Settled(s) && Allowed(s, Op(i)) && Exec(s.m, i).Exit? && InNative(Exec(s.m, i).m.k)
    ensures Settled(Execute(s, Op(i)))
  {
    hide ChainOk, Accounted, LimboOk, Calls, CallsOk, NativesActive, Exec, WellCoded, StopsAtUntry, Evolves;
    StepKeepsInvariant(s, Op(i));
    InstructionOk(s.m, i);
    InstructionOutcome(s.m, i);
    NoneNew(s, Exec(s.m, i).m);
  }

  /** Everything stays settled if and only if the step does not stray. */
  lemma StepSettles(s: Session, step: Step)
    requires Settled(s) && Allowed(s, step)
    ensures Settled(Execute(s, step)) <==> !Strays(s, step)
  {
    hide Inv, NativesActive, Calls, Exec, NativeExec, FinishNative, CanExecute, WellBehaved, FinishFits, StopsAtUntry,
         InNative, StartsNative, OpStrays, Listed;
    if Effect(s, step).Exit? { ExitWhere(s, step); }
    match step
    case Op(i) =>
      if Exec(s.m, i).Continue? { OpSettles(s, i); } else if InNative(Exec(s.m, i).m.k) { OpExitSettles(s, i); }
    case Native(op) => NativeSettles(s, op);
    case Finish(x, ref) => if !Strays(s, step) { FinishSettles(s, x, ref); }
  }

  ghost predicate NeverStrays(s: Session, run: seq<Step>)
    decreases |run|
  {
    run == [] || (!Strays(s, run[0]) && NeverStrays(Execute(s, run[0]), run[1..]))
  }

  /** As long as no step strays, native code always has control at its own frame. */
  lemma {:induction false} RunSettles(s: Session, run: seq<Step>)
    requires Settled(s) && AllowedRun(s, run) && NeverStrays(s, run)
    ensures Settled(RunAll(s, run)) && (!RunAll(s, run).running ==> RunAll(s, run).AtHome())
    decreases |run|
  {
    hide Settled, Allowed, Execute, Strays;
    if run == [] {
      if !s.running { SettledHome(s); }
    } else {
      StepSettles(s, run[0]);
      RunSettles(Execute(s, run[0]), run[1..]);
    }
  }

  lemma OpenedSettled(heapsize: nat, statics: nat)
    requires heapsize > 0
    ensures Settled(Opened(heapsize, statics))
  {
    hide Inv, NativesActive;
    InitialInvariant(heapsize, statics);
  }

  /** So a native function that calls EEL functions which never stray gives its caller back the
      registers, and all calls that were active. */
  lemma NestedCallRestores(s: Session, i: Instr, run: seq<Step>, ref: nat)
    requires Settled(s) && Allowed(s, Op(i)) && CallTarget(s.m, i).Some? && CallTarget(s.m, i).value.0.native
    requires AllowedRun(Execute(s, Op(i)), run) && NeverStrays(Execute(s, Op(i)), run)
    requires var s2 := RunAll(Execute(s, Op(i)), run);
      s2.natives == Execute(s, Op(i)).natives && Allowed(s2, Finish(XOK, ref))
    ensures var s3 := Execute(RunAll(Execute(s, Op(i)), run), Finish(XOK, ref)); var k, k3 := s.m.k, s3.m.k;
      && (k3.base, k3.sbase, k3.sp) == (k.base, k.sbase, k.sbase)
      && k3.pc == k.pc + (if i.Call? then 2 else if i.CallR? then 3 else if i.CCall? then 4 else 5)
      && Calls(k3) == Calls(k) && Sound(s3)
  {
    hide Inv, Calls, RunAll, AllowedRun, CallTarget, Exec, FinishNative, CanExecute, FinishFits, InNative, Settled,
         NativesActive, NeverStrays, OpStrays;
    SettledSound(s);
    NativeEnters(s.m, i);
    StepSettles(s, Op(i));
    RunSettles(Execute(s, Op(i)), run);
    NativeCallRestores(s, i, run, ref);
  }

  /** A native function that returns without an exception to the frame of another native function
      leaves the interpreter nothing to go on with, and nobody else is in control. */
  lemma NobodyGoesOn(s: Session, ref: nat, step: Step)
    requires Sound(s) && Allowed(s, Finish(XOK, ref)) && InNative(s.m.k.Below())
    ensures !Allowed(Execute(s, Finish(XOK, ref)), step)
  {
    hide Inv, Calls, FinishNative, WellBehaved, WellCoded, LeavesNothing;
    InnermostActive(s);
    BackInNative(s.m, s.natives[0], ref);
  }

  lemma BackInNative(m: Machine, call: ActiveCall, ref: nat)
    requires Inv(m) && FinishFits(m, call, XOK, ref) && call in Calls(m.k) && call.cf.f.native
    requires InNative(m.k.Below())
    ensures FinishNative(m, call, XOK, ref).Continue? && InNative(FinishNative(m, call, XOK, ref).m.k)
  {
    hide ChainOk, Accounted, LimboOk, CallsOk, Calls, OwnedValues, LimboObjects, LeavesNothing, Landing, GiveUp,
         WriteResult, Received;
    if call.cf.f.results {
      ResultLands(m, call, ref);
      var m2 := Landing(WriteResult(HostLoses(m, ref), call.cf.result, m.host[ref]), XOK);
      GivenRegisters(m2, [Received(m, call, ref)]);
    } else {
      Lands(m, XOK);
    }
  }

  /** The state in which a function that native code calls starts. */
  lemma CallbackEnters(m: Machine, f: Function)
    requires Inv(m) && WellBehaved(m, Invoke(f)) && InvokeFunction(m, f).Continue?
    ensures var m1 := InvokeFunction(m, f).m;
      && Inv(m1) && m1.k.base > 0 && m1.k.HasFrame() && m1.k.Cf().serial == m.next
      && Calls(m1.k) != [] && Calls(m1.k)[1..] == Calls(m.k)
      && (m1.k.Cf().rBase, m1.k.Cf().rSbase, m1.k.Cf().rPc) == (m.k.base, m.k.sbase, m.k.pc)
  {
    hide ChainOk, Accounted, LimboOk, CallsOk, Calls, OwnedValues, LimboObjects, FreeSlot, Enter, SetException,
         WellFormedFunction, Evolves, NativesStay, PassedCode, ResetArgs, FirstIsFree, CanEnter;
    InvokeEnters(m, f);
    EnterFrame(m, f, if m.Reg(0) != Nil && f.results then m.k.base else -1, 0, PLAIN);
  }

  lemma SameNative(k: Stack, k': Stack)
    requires ChainOk(k) && ChainOk(k') && Calls(k) == Calls(k')
    ensures InNative(k) == InNative(k')
  {
    hide ChainOk, Calls, InNative;
    if Calls(k) == [] {
      NoCalls(k);
      NoCalls(k');
    } else {
      TopIs(k);
      TopIs(k');
    }
  }

  lemma ReturnGoesOn(m: Machine, j: Instr)
    requires Inv(m) && CanExecute(m, j) && (j.Return? || j.ReturnR?)
    ensures Exec(m, j).Continue? <==> !InNative(Exec(m, j).m.k)
  {
    hide ChainOk, Accounted, LimboOk, CallsOk, Calls, OwnedValues, LimboObjects, Exec, CanExecute, Receive;
    var m', result := ReturnPath(m, j);
    DeliverOk(m', result);
    DeliverExits(m', result);
  }

  /** However an EEL function runs that native code has called: when it returns, the registers are
      what they were at the call, and so are the calls. Native code has control again if and only if
      `base` was at its frame. Otherwise the interpreter goes on at the frame that threw XEND, or is
      that of an UNTRY block. */
  lemma CallbackReturns(s: Session, f: Function, run: seq<Step>, j: Instr)
    requires Sound(s) && Allowed(s, Native(Invoke(f))) && InvokeFunction(s.m, f).Continue?
    requires AllowedRun(Execute(s, Native(Invoke(f))), run)
    requires var s2 := RunAll(Execute(s, Native(Invoke(f))), run);
      && s2.m.k.base > 0 && s2.m.k.HasFrame() && s2.m.k.Cf().serial == s.m.next
      && Allowed(s2, Op(j)) && (j.Return? || j.ReturnR?)
    ensures var s3 := Execute(RunAll(Execute(s, Native(Invoke(f))), run), Op(j)); var k, k3 := s.m.k, s3.m.k;
      && (k3.base, k3.sbase, k3.sp, k3.pc) == (k.base, k.sbase, k.sbase, k.pc) && Calls(k3) == Calls(k) && Sound(s3)
      && (s3.running <==> !InNative(k))
  {
    hide Inv, Calls, RunAll, AllowedRun, Exec, CanExecute, NativesActive, InNative, InvokeFunction, WellBehaved,
         Evolves;
    InvokeIs(s.m, f);
    CallbackEnters(s.m, f);
    StepKeepsInvariant(s, Native(Invoke(f)));
    var s1 := Execute(s, Native(Invoke(f)));
    SameCallRunning(s1, run);
    var s2 := RunAll(s1, run);
    TopOf(s1.m);
    TopOf(s2.m);
    StepKeepsInvariant(s2, Op(j));
    ReturnRestores(s2.m, j);
    ReturnGoesOn(s2.m, j);
    var m3 := Exec(s2.m, j).m;
    SameNative(s.m.k, m3.k) by { assert ChainOk(s.m.k) && ChainOk(m3.k) by { InvChain(s.m); InvChain(m3); } }
    NewInNative(s2.m, m3);
  }

  lemma InvChain(m: Machine)
    requires Inv(m)
    ensures ChainOk(m.k)
  {
  }

  lemma NewInNative(m: Machine, m': Machine)
    ensures StartsNative(m, m') ==> InNative(m'.k)
  {
  }
}
