/** Where results go: what a called function returns is in the register that the caller named, however
    the function runs and whatever it calls; and native code gets what the EEL functions return that
    it calls (`call_eel`, `call_c`, `eel_callf` in e_vm.c). */
module CallResults {
  import opened Values
  import opened ObjectStore
  import opened CallStack
  import opened Frames
  import opened MachineState
  import opened CallLinks
  import opened Instructions
  import opened NativeCode
  import opened LeavingCalls
  import opened Unwinding
  import opened ExceptionFlow
  import opened Safety
  import opened Steps
  import opened NativeSteps
  import opened Runs
  import opened CallTheorems
  import opened DataFlow
  import opened CallChecks

  /** CALLR and CCALLR name a register for the result. */
  predicate WantsResult(i: Instr) {
    i.CallR? || i.CCallR?
  }

  /** However the called EEL function runs: when it executes RETURNR for its call, the value is in the
      register that the caller named, and the caller goes on with its next instruction. An object is
      alive, and in limbo. */
  lemma ResultArrives(s: Session, i: Instr, run: seq<Step>, c: nat)
    requires Sound(s) && Allowed(s, Op(i)) && WantsResult(i)
    requires CallTarget(s.m, i).Some? && !CallTarget(s.m, i).value.0.native && CallTarget(s.m, i).value.0.results
    requires AllowedRun(Execute(s, Op(i)), run)
    requires var s2 := RunAll(Execute(s, Op(i)), run);
      && s2.m.k.base > 0 && s2.m.k.HasFrame() && s2.m.k.Cf().serial == s.m.next && Allowed(s2, Op(ReturnR(c)))
    ensures var s2 := RunAll(Execute(s, Op(i)), run); var m3, v := Execute(s2, Op(ReturnR(c))).m, s2.m.Reg(c);
      && m3.k.base == s.m.k.base && m3.k.pc == s.m.k.pc + (if i.CallR? then 3 else 5)
      && m3.Reg(i.b) == v && (v.Ref? ==> IsLive(m3.st, v) && v.o in m3.limboed)
  {
    hide Inv, Calls, RunAll, AllowedRun, CallTarget, Exec, CanExecute, NativesActive, WellFormedFunction;
    Running(s.m, i);
    CallReturnRestores(s, i, run, ReturnR(c));
    CallEnters(s.m, i);
    StepKeepsInvariant(s, Op(i));
    var s1 := Execute(s, Op(i));
    SameCallRunning(s1, run);
    var s2 := RunAll(s1, run);
    TopOf(s1.m);
    TopOf(s2.m);
    TargetNamed(s.m, i);
    TargetResult(s.m, i);
    CallerIsEel(s2.m, s.m);
    ReturnedValueArrives(s2.m, c);
  }

  lemma Running(m: Machine, i: Instr)
    requires CanExecute(m, i)
    ensures !InNative(m.k) && m.k.base > 0 && m.k.HasFrame()
  {
  }

  lemma TargetNamed(m: Machine, i: Instr)
    requires m.k.HasFrame() && WantsResult(i) && CallTarget(m, i).Some?
    ensures CallTarget(m, i).value.1 == m.k.base + i.b && Size(i) == if i.CallR? then 3 else 5
  {
  }

  /** The frame of the called function says where its result goes. */
  lemma TargetResult(m: Machine, i: Instr)
    requires Inv(m) && CanExecute(m, i) && CallTarget(m, i).Some? && WantsResult(i)
    requires !CallTarget(m, i).value.0.native ==> CallTarget(m, i).value.0.results
    ensures Exec(m, i).m.k.HasFrame() && Exec(m, i).m.k.Cf().result == m.k.base + i.b
  {
    hide ChainOk, Accounted, LimboOk, CallsOk, Calls, OwnedValues, LimboObjects, CallTarget, Exec, WellFormedFunction,
         CanExecute;
    Running(m, i);
    TargetNamed(m, i);
    if CallTarget(m, i).value.0.native { NativeResult(m, i); } else { ArgumentCells(m, i); }
  }

  lemma NativeResult(m: Machine, i: Instr)
    requires Inv(m) && CanExecute(m, i) && CallTarget(m, i).Some? && CallTarget(m, i).value.0.native && WantsResult(i)
    ensures Exec(m, i).m.k.HasFrame() && Exec(m, i).m.k.Cf().result == m.k.base + i.b
  {
    hide ChainOk, Accounted, LimboOk, CallsOk, Calls, OwnedValues, LimboObjects, FreeSlot, WellFormedFunction,
         CheckArgs, CallTarget, CanEnter, Owns, Count, Roots, Exec, Enter, ControlCoded, ValueCoded, CalledAs;
    var m0 := Advance(m, Size(i));
    assert IsControl(i) by { TargetIsControl(m, i); }
    AdvanceControl(m, Size(i), i);
    AdvanceSame(m, Size(i));
    var (f, result, levels) := CallTarget(m, i).value;
    assert CallTarget(m0, i) == CallTarget(m, i) by { TargetSame(m, i, Size(i)); }
    TargetFits(m0, i);
    TargetNamed(m, i);
    FunctionEnters(m0, f, result, levels);
    EnterFrame(m0, f, result, 0, PLAIN);
    CallIsEnter(m, i);
  }

  /** A call made by EEL code returns to EEL code. */
  lemma CallerIsEel(m: Machine, caller: Machine)
    requires Inv(m) && Inv(caller) && !InNative(caller.k) && m.k.base > 0 && m.k.HasFrame()
    requires Calls(m.k) != [] && Calls(m.k)[1..] == Calls(caller.k)
    ensures !InNative(m.k.Below())
  {
    hide Accounted, LimboOk, CallsOk, OwnedValues, LimboObjects, LayoutOk, LinksOk;
    BelowOk(m.k);
    TopCall(caller.k);
    assert Calls(m.k.Below()) == Calls(caller.k);
    TopCall(m.k.Below());
  }

  /** Whatever a called native function does: when it returns a result without an exception, from its
      own frame, that is in the register that the caller named. An object is alive, and in limbo. */
  lemma NativeResultArrives(s: Session, i: Instr, run: seq<Step>, ref: nat)
    requires Sound(s) && Allowed(s, Op(i)) && WantsResult(i)
    requires CallTarget(s.m, i).Some? && CallTarget(s.m, i).value.0.native && CallTarget(s.m, i).value.0.results
    requires AllowedRun(Execute(s, Op(i)), run)
    requires var s2 := RunAll(Execute(s, Op(i)), run);
      && !s2.running && s2.natives == Execute(s, Op(i)).natives && s2.AtHome() && Allowed(s2, Finish(XOK, ref))
    ensures var s2 := RunAll(Execute(s, Op(i)), run); var m3 := Execute(s2, Finish(XOK, ref)).m;
      && ref < |s2.m.host| && m3.Reg(i.b) == s2.m.host[ref] && m3.host == s2.m.host[..ref] + s2.m.host[ref + 1..]
      && (s2.m.host[ref].Ref? ==> IsLive(m3.st, s2.m.host[ref]) && s2.m.host[ref].o in m3.limboed)
  {
    hide Inv, Calls, RunAll, AllowedRun, CallTarget, Exec, FinishNative, CanExecute, FinishFits, Evolves, InNative,
         NativesActive, WellFormedFunction;
    var call := NativeCalled(s, i);
    var s1 := Execute(s, Op(i));
    RunKeepsInvariant(s1, run);
    var s2 := RunAll(s1, run);
    NativeCallRestores(s, i, run, ref);
    InnermostActive(s2);
    FinishedResult(s2.m, call, ref);
  }

  /** The call that a called native function runs in. */
  lemma NativeCalled(s: Session, i: Instr) returns (call: ActiveCall)
    requires Sound(s) && Allowed(s, Op(i)) && WantsResult(i)
    requires CallTarget(s.m, i).Some? && CallTarget(s.m, i).value.0.native
    ensures Sound(Execute(s, Op(i))) && Execute(s, Op(i)).natives == [call] + s.natives
    ensures call.cf.f == CallTarget(s.m, i).value.0 && call.base > call.cf.result == s.m.k.base + i.b
  {
    hide Inv, Calls, CallTarget, Exec, CanExecute, Evolves, InNative, NativesActive, WellFormedFunction;
    Running(s.m, i);
    NativeEnters(s.m, i);
    StepKeepsInvariant(s, Op(i));
    TargetResult(s.m, i);
    ResultBelow(s.m, i);
    call := Execute(s, Op(i)).natives[0];
  }

  /** The caller's register is below the frame of the called function. */
  lemma ResultBelow(m: Machine, i: Instr)
    requires Inv(m) && CanExecute(m, i) && CallTarget(m, i).Some? && CallTarget(m, i).value.0.native && WantsResult(i)
    ensures Exec(m, i).m.k.base > m.k.base + i.b
  {
    hide ChainOk, Accounted, LimboOk, CallsOk, Calls, OwnedValues, LimboObjects, CallTarget, Exec, CanExecute;
    Running(m, i);
    NativeEnters(m, i);
    RegisterNamed(m, i);
    AboveCaller(Exec(m, i).m.k);
    FrameBelowSp(m.k);
  }

  lemma RegisterNamed(m: Machine, i: Instr)
    requires Inv(m) && CanExecute(m, i) && WantsResult(i)
    ensures m.k.base + i.b < m.k.sbase
  {
    hide ChainOk, Accounted, LimboOk, CallsOk, Calls, OwnedValues, LimboObjects;
    RegisterCell(m, i.b);
  }

  lemma AboveCaller(k: Stack)
    requires ChainOk(k) && k.base > 0 && k.HasFrame()
    ensures k.base > k.Cf().rSbase
  {
    FrameBelowSp(k);
    assert LayoutOk(k);
  }

  /** The end of a native function that has a result, at its own frame. */
  lemma FinishedResult(m: Machine, call: ActiveCall, ref: nat)
    requires Inv(m) && call in Calls(m.k) && call.cf.f.native && call.cf.f.results && m.k.base == call.base
    requires FinishFits(m, call, XOK, ref) && call.cf.result != call.base
    ensures var m' := FinishNative(m, call, XOK, ref).m; var v := m.host[ref];
      && ref < |m.host| && 0 <= call.cf.result && RegValue(m'.k.heap, call.cf.result) == v
      && m'.host == m.host[..ref] + m.host[ref + 1..]
      && (v.Ref? ==> IsLive(m'.st, v) && v.o in m'.limboed)
  {
    hide ChainOk, Accounted, LimboOk, CallsOk, Calls, OwnedValues, LimboObjects, Landing, Receive, LeavesNothing;
    ResultLands(m, call, ref);
    SameCall(m.k, call);
    var slot, v := call.cf.result, m.host[ref];
    var m1 := WriteResult(HostLoses(m, ref), slot, v);
    var m2 := Landing(m1, XOK);
    FinishResultOk(m, call, ref);
    LandedHeap(m1);
    assert FinishNative(m, call, XOK, ref) == Continue(Receive(m2, v));
    CellWritten(m2, slot, v);
    ReceiveHeap(m2, v, slot);
    ReceivedHost(m2, v);
    if v.Ref? {
      assert [] + [v] == [v];
      ReceiveOk(m2, [], v);
      LimboedLive(Receive(m2, v), v);
    }
  }

  lemma LandedHeap(m: Machine)
    requires m.k.HasFrame()
    ensures Landing(m, XOK).k.heap == m.k.heap && Landing(m, XOK).host == m.host
  {
    hide ClearArgs;
    OnlyArgsCleared(BackFrom(m));
  }

  lemma CellWritten(m: Machine, j: nat, v: Value)
    requires j < |m.k.heap| && m.k.heap[j] == Val(v)
    ensures RegValue(m.k.heap, j) == v
  {
  }

  lemma ReceivedHost(m: Machine, v: Value)
    ensures Receive(m, v).host == m.host
  {
  }

  /** What an EEL function returns to native code that has called it: native code is in control again,
      and has a reference to the value. */
  lemma ResultToNative(m: Machine, a: nat)
    requires Inv(m) && CanExecute(m, ReturnR(a)) && m.k.Cf().result >= 0 && InNative(m.k.Below())
    ensures var r := Exec(m, ReturnR(a));
      && r.Exit? && r.code == 3 && r.m.host == m.host + [m.Reg(a)] && Inv(r.m) && Calls(r.m.k) == Calls(m.k)[1..]
      && RegValue(r.m.k.heap, m.k.Cf().result) == m.Reg(a)
  {
    hide ChainOk, Accounted, LimboOk, CallsOk, Calls, OwnedValues, LimboObjects, Count, Exec;
    var m1, result := ReturnPath(m, ReturnR(a));
    DeliverOk(m1, result);
    ReturnsToNative(m.k, m1.k);
    assert Waiting(m1.k, result) == [RegValue(m1.k.heap, result)];
    assert Waiting(m1.k, result)[0] == m.Reg(a);
  }

  lemma ReturnsToNative(k: Stack, k': Stack)
    requires ChainOk(k) && ChainOk(k') && k.base > 0 && k.HasFrame() && InNative(k.Below())
    requires Calls(k') == Calls(k)[1..] && k'.base == k.Cf().rBase
    ensures InNative(k')
  {
    hide LayoutOk, LinksOk;
    BelowOk(k);
    assert Calls(k)[1..] == Calls(k.Below());
    if k.Below().base > 0 {
      TopCall(k.Below());
      CallsNative(k.Below(), k');
    }
  }

  // ---------------------------------------------------------------------------------------
  // eel_callf
  // ---------------------------------------------------------------------------------------

  function Passes(args: seq<Value>): (r: seq<Step>)
    ensures |r| == |args|
    decreases |args|
  {
    if args == [] then [] else [Native(Pass(args[0]))] + Passes(args[1..])
  }

  /** What native code does before a call: the argument stack is cleared, a result is asked for if it is
      wanted, and the arguments are pushed. */
  function Prepared(s: Session, args: seq<Value>, wanted: bool): Session {
    var s1 := Execute(s, Native(Reset));
    RunAll(if wanted then Execute(s1, Native(Want)) else s1, Passes(args))
  }

  ghost predicate MayPrepare(s: Session, args: seq<Value>, wanted: bool) {
    var s1 := Execute(s, Native(Reset));
    && Allowed(s, Native(Reset)) && (wanted ==> Allowed(s1, Native(Want)))
    && AllowedRun(if wanted then Execute(s1, Native(Want)) else s1, Passes(args))
  }

  /** In control at its frame, or at the top level, with these arguments pushed. */
  ghost predicate Ready(s: Session, args: seq<Value>, first: Value, was: Session) {
    && Sound(s) && !s.running && InNative(s.m.k) && s.m.k.base == was.m.k.base && s.m.next == was.m.next
    && Calls(s.m.k) == Calls(was.m.k) && s.natives == was.natives
    && Arguments(s.m.k) == args && s.m.Reg(0) == first
  }

  lemma ArgumentPassed(s: Session, args: seq<Value>, first: Value, was: Session, v: Value)
    requires Ready(s, args, first, was) && Allowed(s, Native(Pass(v)))
    ensures Ready(Execute(s, Native(Pass(v))), args + [v], first, was)
  {
    hide ChainOk, Accounted, LimboOk, CallsOk, Calls, OwnedValues, LimboObjects, NativesActive, Arguments, PushArg, Own,
         Evolves;
    StepKeepsInvariant(s, Native(Pass(v)));
    ValuesAbove(s.m.k);
    PushedArguments(s.m.k, v);
    FirstKept(s.m.k, v);
    PushOk(s.m, v);
  }

  /** Native code has a register for the result below its arguments. */
  lemma FirstKept(k: Stack, v: Value)
    requires ChainOk(k) && InNative(k) && k.sp <= |k.heap| && |k.heap| > 0
    ensures var k' := PushArg(k, v);
      k'.base == k.base && RegValue(k'.heap, k.base) == RegValue(k.heap, k.base) && InNative(k')
  {
    hide LayoutChain, LinkChain, Grow;
    NativeSlot(k);
    var k' := PushArg(k, v);
    var grown := Grow(k.heap, k.sp + 1);
    assert grown[..|k.heap|] == k.heap;
    assert forall j :: 0 <= j < k.sp ==> k'.heap[j] == grown[..|k.heap|][j];
    if k.base > 0 { FrameBelowSp(k); }
  }

  lemma {:induction false} ArgumentsPassed(s: Session, args: seq<Value>, first: Value, was: Session, more: seq<Value>)
    requires Ready(s, args, first, was) && AllowedRun(s, Passes(more))
    ensures Ready(RunAll(s, Passes(more)), args + more, first, was)
    decreases |more|
  {
    hide Ready, Execute, Allowed;
    if more == [] {
      assert args + more == args;
    } else {
      ArgumentPassed(s, args, first, was, more[0]);
      assert Passes(more)[1..] == Passes(more[1..]);
      ArgumentsPassed(Execute(s, Native(Pass(more[0]))), args + [more[0]], first, was, more[1..]);
      assert args + [more[0]] + more[1..] == args + more;
    }
  }

  lemma WasReset(s: Session)
    requires Sound(s) && !s.running && InNative(s.m.k) && Allowed(s, Native(Reset))
    ensures Ready(Execute(s, Native(Reset)), [], Nil, s)
  {
    hide ChainOk, Accounted, LimboOk, CallsOk, Calls, OwnedValues, LimboObjects, NativesActive, Arguments, ResetArgs,
         Evolves;
    StepKeepsInvariant(s, Native(Reset));
    ResetMeans(s.m);
    ResetOk(s.m);
    StillNative(s.m.k, ResetArgs(s.m).k);
  }

  lemma StillNative(k: Stack, k': Stack)
    requires ChainOk(k) && ChainOk(k') && Calls(k') == Calls(k) && k'.base == k.base && InNative(k)
    ensures InNative(k')
  {
    hide ChainOk, Calls;
    if k.base > 0 {
      TopCall(k);
      CallsNative(k, k');
    }
  }

  lemma ResultAsked(s: Session, was: Session)
    requires Ready(s, [], Nil, was) && Allowed(s, Native(Want))
    ensures Ready(Execute(s, Native(Want)), [], Scalar(3, 1), was)
  {
    hide ChainOk, Accounted, LimboOk, CallsOk, Calls, OwnedValues, LimboObjects, NativesActive, Evolves;
    StepKeepsInvariant(s, Native(Want));
    FirstWritten(s.m, Scalar(3, 1));
    NativeSlot(s.m.k);
    StillNative(s.m.k, WriteReg(s.m, 0, Scalar(3, 1)).k);
    NoneStill(s.m.k, WriteReg(s.m, 0, Scalar(3, 1)).k);
  }

  lemma NoneStill(k: Stack, k': Stack)
    requires ChainOk(k) && Arguments(k) == [] && (k'.sp, k'.sbase) == (k.sp, k.sbase)
    ensures Arguments(k') == []
  {
    ValuesAbove(k);
    assert |Arguments(k)| == k.sp - k.sbase;
  }

  /** A call of an EEL function by native code that is in control at its own frame, or at the top level.
      The function is entered with the arguments that were pushed, and in their order, if their number
      is right; its result goes to register 0 of native code, if one was asked for, and that needs
      a function that has results. If the call is refused then all is as before it. */
  lemma CallfEnters(s: Session, args: seq<Value>, wanted: bool, f: Function)
    requires Sound(s) && !s.running && InNative(s.m.k) && MayPrepare(s, args, wanted)
    requires WellFormedFunction(f) && !f.native
    ensures var s1 := Prepared(s, args, wanted); var s2, r := Execute(s1, Native(Invoke(f))), InvokeFunction(s1.m, f);
      && Arguments(s1.m.k) == args && (s2.running <==> Accepts(f, |args|) && (wanted ==> f.results))
      && (s2.running ==> Entered(s1.m, r, f, if wanted then s.m.k.base else -1) && s2.m == r.m)
      && (!s2.running ==> Calls(s2.m.k) == Calls(s.m.k) && s2.m.k.base == s.m.k.base)
  {
    hide Inv, Calls, Arguments, Execute, Allowed, Entered, Accepts, NativesActive, WellFormedFunction, InvokeFunction;
    WasReset(s);
    var s0 := Execute(s, Native(Reset));
    if wanted { ResultAsked(s0, s); }
    var first := if wanted then Scalar(3, 1) else Nil;
    ArgumentsPassed(if wanted then Execute(s0, Native(Want)) else s0, [], first, s, args);
    assert [] + args == args;
    var s1 := Prepared(s, args, wanted);
    InvokedOrNot(s1, args, first, s, f);
  }

  lemma InvokedOrNot(s: Session, args: seq<Value>, first: Value, was: Session, f: Function)
    requires Ready(s, args, first, was) && WellFormedFunction(f) && !f.native
    ensures var s2, r := Execute(s, Native(Invoke(f))), InvokeFunction(s.m, f);
      && (s2.running <==> Accepts(f, |args|) && (first != Nil ==> f.results))
      && (s2.running ==> Entered(s.m, r, f, if first != Nil then was.m.k.base else -1) && s2.m == r.m)
      && (!s2.running ==> Calls(s2.m.k) == Calls(was.m.k) && s2.m.k.base == was.m.k.base)
  {
    hide Accounted, LimboOk, CallsOk, Calls, OwnedValues, LimboObjects, Arguments, Accepts, Rejects, NativesActive,
         WellFormedFunction, LayoutChain, LinkChain, Enter, FreeSlot, CheckArgs, ResetArgs, SetException;
    NativeSlot(s.m.k);
    InvokeChecked(s.m, f);
    ResetMeans(s.m);
  }
}
