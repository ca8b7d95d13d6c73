/** What calls and returns guarantee over whole runs: where calls are in the heap, what
    upvalue links lead to, and that a caller gets its registers back. */
module CallTheorems {
  import opened Values
  import opened ObjectStore
  import opened CallStack
  import opened MachineState
  import opened CallLinks
  import opened Instructions
  import opened NativeCode
  import opened LeavingCalls
  import opened Unwinding
  import opened Safety
  import opened ExceptionFlow
  import opened Steps
  import opened NativeSteps
  import opened Runs

  /** As long as a call is active, it and all calls below it are as they were when it was made. */
  lemma {:induction false} RunEvolves(s: Session, run: seq<Step>)
    requires Sound(s) && AllowedRun(s, run)
    ensures Evolves(s.m, RunAll(s, run).m)
    decreases |run|
  {
    hide Sound, Allowed, Execute, Evolves;
    if run == [] {
      EvolvesSame(s.m, s.m);
    } else {
      StepKeepsInvariant(s, run[0]);
      var s1 := Execute(s, run[0]);
      RunEvolves(s1, run[1..]);
      EvolvesTrans(s.m, s1.m, RunAll(s, run).m);
    }
  }

  /** If the newest call of some state is running again after a run, the call chain is the same. */
  lemma SameCallRunning(s: Session, run: seq<Step>)
    requires Sound(s) && AllowedRun(s, run) && s.m.k.base > 0 && s.m.k.HasFrame()
    requires var m' := RunAll(s, run).m;
      m'.k.base > 0 && m'.k.HasFrame() && m'.k.Cf().serial == s.m.k.Cf().serial
    ensures Calls(RunAll(s, run).m.k) == Calls(s.m.k) && Sound(RunAll(s, run))
  {
    hide RunAll, AllowedRun, ChainOk, Accounted, LimboOk, NativesActive;
    RunEvolves(s, run);
    RunKeepsInvariant(s, run);
    var m, m' := s.m, RunAll(s, run).m;
    TopCall(m.k);
    TopCall(m'.k);
    assert Calls(m'.k)[0..] == Calls(m'.k);
    assert IsSuffix(Calls(m'.k), Calls(m.k));
    var n := |Calls(m.k)| - |Calls(m'.k)|;
    assert Calls(m.k)[n..][0] == Calls(m.k)[n];
  }

  // ---------------------------------------------------------------------------------------
  // Properly nested calls
  // ---------------------------------------------------------------------------------------

  /** The function that a call instruction enters, unless it throws an exception instead. */
  function CallTarget(m: Machine, i: Instr): Option<(Function, int, nat)>
    requires m.k.HasFrame()
  {
    match i
    case Call(a) =>
      if m.Reg(a).Callable? && Enters(m, m.Reg(a).f, false) then Some((m.Reg(a).f, -1, 0)) else None
    case CallR(a, b) =>
      if m.Reg(a).Callable? && Enters(m, m.Reg(a).f, true) then Some((m.Reg(a).f, m.k.base + b, 0)) else None
    case CCall(levels, f) => Some((f, -1, levels))
    case CCallR(levels, b, f) => if f.results then Some((f, m.k.base + b, levels)) else None
    case _ => None
  }

  lemma CallIsEnter(m: Machine, i: Instr)
    requires !InNative(m.k) && CallTarget(m, i).Some?
    ensures var (f, result, levels) := CallTarget(m, i).value;
      Exec(m, i) == Continue(Enter(Advance(m, Size(i)), f, result, if f.native then 0 else levels, PLAIN))
  {
    hide Enter, ThrowCode, CheckArgs;
    var m0 := Advance(m, Size(i));
    assert m0.k.HasFrame() && IsControl(i);
    assert forall a: nat :: m0.Reg(a) == m.Reg(a);
  }

  lemma TargetFits(m: Machine, i: Instr)
    requires Inv(m) && !InNative(m.k) && WellCoded(m, i) && CallTarget(m, i).Some?
    ensures var (f, result, levels) := CallTarget(m, i).value;
      && CalledAs(m, f, levels) && (result == -1 || (result >= 0 && FreeSlot(m.k, result)))
  {
    hide ChainOk, Accounted, LimboOk, CallsOk, Calls, OwnedValues, LimboObjects, FreeSlot, CheckArgs, CalledAs,
         ValueCoded, Temp, Rooted, KeepsOwner, BlockFits, HandlerFits;
    if i.CallR? { TempIsFree(m, i.b); }
    if i.CCallR? { TempIsFree(m, i.b); }
    if i.Call? || i.CallR? { FittingCall(m, m.Reg(i.a).f); }
  }

  /** The state in which the called function starts. */
  lemma CallEnters(m: Machine, i: Instr)
    requires Inv(m) && CanExecute(m, i) && CallTarget(m, i).Some? && !CallTarget(m, i).value.0.native
    ensures var m1 := Exec(m, i).m;
      && Exec(m, i).Continue? && Inv(m1) && !InNative(m1.k) && m1.k.base > 0
      && Calls(m1.k) == [ActiveCall(m1.k.base, m1.k.Cf())] + Calls(m.k) && m1.k.pc == 0
      && m1.k.Cf().f == CallTarget(m, i).value.0 && m1.k.Cf().serial == m.next
      && m1.k.Cf().rBase == m.k.base && m1.k.Cf().rPc == m.k.pc + Size(i)
      && m1.k.Cf().rSbase == m.k.sbase && m1.k.Cf().rSp == m.k.sp
  {
    hide ChainOk, Accounted, LimboOk, CallsOk, Calls, OwnedValues, LimboObjects, FreeSlot, WellFormedFunction,
         CheckArgs, CallTarget, CanEnter, Owns, Count, Roots, Exec, Enter, ControlCoded, ValueCoded, CalledAs;
    var m0 := Advance(m, Size(i));
    assert IsControl(i) by { TargetIsControl(m, i); }
    AdvanceControl(m, Size(i), i);
    AdvanceSame(m, Size(i));
    var (f, result, levels) := CallTarget(m, i).value;
    assert CallTarget(m0, i) == CallTarget(m, i) by { TargetSame(m, i, Size(i)); }
    TargetFits(m0, i);
    FunctionEnters(m0, f, result, levels);
    EnterFrame(m0, f, result, levels, PLAIN);
    EnterOk(m0, [], f, result, levels, PLAIN);
    CallIsEnter(m, i);
  }

  lemma TargetIsControl(m: Machine, i: Instr)
    requires m.k.HasFrame() && CallTarget(m, i).Some?
    ensures IsControl(i)
    ensures Size(i) == if i.Call? then 2 else if i.CallR? then 3 else if i.CCall? then 4 else 5
  {
  }

  lemma TargetRuns(m: Machine, i: Instr)
    requires CanExecute(m, i) && CallTarget(m, i).Some?
    ensures Size(i) == if i.Call? then 2 else if i.CallR? then 3 else if i.CCall? then 4 else 5
  {
    hide CallTarget, WellCoded;
    TargetIsControl(m, i);
  }

  lemma TargetSame(m: Machine, i: Instr, n: nat)
    requires m.k.HasFrame()
    ensures Advance(m, n).k.HasFrame() && CallTarget(Advance(m, n), i) == CallTarget(m, i)
  {
    hide CheckArgs;
    assert forall a: nat :: Advance(m, n).Reg(a) == m.Reg(a);
  }

  // ---------------------------------------------------------------------------------------
  // Calls of function values
  // ---------------------------------------------------------------------------------------

  /** What the compiler guarantees of CALL and CALLR, whatever function the value is. */
  ghost predicate CallCoded(m: Machine, i: Instr)
    requires m.k.HasFrame()
  {
    && (i.Call? || i.CallR?) && i.a < FrameSize(m.k.Cf().f) && (i.CallR? ==> Temp(m, i.b))
    && (m.Reg(i.a).Callable? ==> WellFormedFunction(m.Reg(i.a).f))
  }

  /** A function value is called with a link to the caller, whose registers it takes for those of the
      function that it is declared in. All else is as it should be. */
  lemma ValueEnters(m: Machine, i: Instr)
    requires Inv(m) && !InNative(m.k) && CallCoded(m, i) && CallTarget(m, i).Some?
    ensures var m' := Exec(m, i).m;
      && InvButLinks(m') && m'.k.base > m.k.base && m'.k.HasFrame() && m'.k.Cf().f == CallTarget(m, i).value.0
      && m'.k.Cf().upvalues == m.k.base && Calls(m'.k) == [ActiveCall(m'.k.base, m'.k.Cf())] + Calls(m.k)
      && UvBase(m'.k.heap, m'.k.base, 1) == m.k.base
  {
    hide ChainOk, Accounted, LimboOk, CallsOk, Calls, OwnedValues, LimboObjects, FreeSlot, Enter, Exec,
         WellFormedFunction, CheckArgs;
    var m0 := Advance(m, Size(i));
    var (f, result, levels) := CallTarget(m, i).value;
    AdvanceSame(m, Size(i));
    if i.CallR? { TempIsFree(m0, i.b); }
    CallIsEnter(m, i);
    EnterButLinks(m0, f, result, 0, PLAIN);
  }

  /** CALL and CALLR keep the invariant if and only if a function that they enter, and that uses
      upvalues, is declared in the function that calls it. All other parts of the invariant are kept
      in any case. */
  lemma CallIff(m: Machine, i: Instr)
    requires Inv(m) && !InNative(m.k) && CallCoded(m, i)
    ensures CanExecute(m, i) <==> (CallTarget(m, i).Some? ==> LinkFits(m.k, CallTarget(m, i).value.0))
    ensures Inv(Exec(m, i).m) <==> CanExecute(m, i)
    ensures InvButLinks(Exec(m, i).m)
  {
    hide ChainOk, Accounted, LimboOk, CallsOk, Calls, OwnedValues, LimboObjects, Exec, WellFormedFunction, PassedCode;
    if CanExecute(m, i) {
      InstructionOk(m, i);
      MostOfInv(Exec(m, i).m);
    } else {
      ValueEnters(m, i);
      var m' := Exec(m, i).m;
      LinkMissing(m'.k, m.k, m'.next);
    }
  }

  lemma MostOfInv(m: Machine)
    requires Inv(m)
    ensures InvButLinks(m)
  {
    hide ChainOk, Accounted, LimboOk, Calls, OwnedValues, LimboObjects;
    assert Roots(m) + [] == Roots(m);
  }

  /** However the called function runs, and whatever it calls: when it returns, the caller has
      its registers and its program counter back, its arguments are consumed, and it and all
      calls below it are the same calls as before. */
  lemma CallReturnRestores(s: Session, i: Instr, run: seq<Step>, j: Instr)
    requires Sound(s) && Allowed(s, Op(i)) && CallTarget(s.m, i).Some? && !CallTarget(s.m, i).value.0.native
    requires AllowedRun(Execute(s, Op(i)), run)
    requires var s2 := RunAll(Execute(s, Op(i)), run);
      && s2.m.k.base > 0 && s2.m.k.HasFrame() && s2.m.k.Cf().serial == s.m.next
      && Allowed(s2, Op(j)) && (j.Return? || j.ReturnR?)
    ensures var s3 := Execute(RunAll(Execute(s, Op(i)), run), Op(j)); var m3 := s3.m;
      && m3.k.base == s.m.k.base && m3.k.sbase == m3.k.sp == s.m.k.sbase
      && m3.k.pc == s.m.k.pc + (if i.Call? then 2 else if i.CallR? then 3 else if i.CCall? then 4 else 5)
      && Calls(m3.k) == Calls(s.m.k) && Sound(s3)
  {
    hide Inv, Calls, RunAll, AllowedRun, CallTarget, Exec, CanExecute, NativesActive;
    TargetRuns(s.m, i);
    CallEnters(s.m, i);
    StepKeepsInvariant(s, Op(i));
    var s1 := Execute(s, Op(i));
    assert Calls(s1.m.k)[1..] == Calls(s.m.k);
    SameCallRunning(s1, run);
    var s2 := RunAll(s1, run);
    TopOf(s1.m);
    TopOf(s2.m);
    StepKeepsInvariant(s2, Op(j));
    ReturnRestores(s2.m, j);
  }

  lemma TopOf(m: Machine)
    requires Inv(m) && m.k.base > 0
    ensures m.k.HasFrame() && Calls(m.k) != [] && Calls(m.k)[0] == ActiveCall(m.k.base, m.k.Cf().(limbo := []))
  {
    hide ChainOk, Calls;
    TopCall(m.k);
  }

  /** The state in which a called native function starts. */
  lemma NativeEnters(m: Machine, i: Instr)
    requires Inv(m) && CanExecute(m, i) && CallTarget(m, i).Some? && CallTarget(m, i).value.0.native
    ensures var m1 := Exec(m, i).m;
      && Exec(m, i).Continue? && Inv(m1) && InNative(m1.k) && m1.k.base > 0 && m1.k.HasFrame()
      && m1.k.Cf().f == CallTarget(m, i).value.0 && Calls(m1.k) == [ActiveCall(m1.k.base, m1.k.Cf())] + Calls(m.k)
      && m1.k.Cf().serial == m.next
      && m1.k.Cf().rBase == m.k.base && m1.k.Cf().rPc == m.k.pc + Size(i) && m1.k.Cf().rSbase == m.k.sbase
  {
    hide ChainOk, Accounted, LimboOk, CallsOk, Calls, OwnedValues, LimboObjects, FreeSlot, WellFormedFunction,
         CheckArgs, CallTarget, CanEnter, Owns, Count, Roots, Exec, Enter, ControlCoded, ValueCoded, CalledAs;
    var m0 := Advance(m, Size(i));
    assert IsControl(i) by { TargetIsControl(m, i); }
    AdvanceControl(m, Size(i), i);
    AdvanceSame(m, Size(i));
    var (f, result, levels) := CallTarget(m, i).value;
    assert CallTarget(m0, i) == CallTarget(m, i) by { TargetSame(m, i, Size(i)); }
    TargetFits(m0, i);
    FunctionEnters(m0, f, result, levels);
    EnterFrame(m0, f, result, 0, PLAIN);
    EnterOk(m0, [], f, result, 0, PLAIN);
    CallIsEnter(m, i);
  }

  /** The same for native functions. Whatever one does, including calls of EEL functions, when it
      returns without an exception then its caller goes on where it was if and only if `base` is
      at the frame of the native function. Otherwise the VM ends up further in than the caller. */
  lemma NativeCallRestores(s: Session, i: Instr, run: seq<Step>, ref: nat)
    requires Sound(s) && Allowed(s, Op(i)) && CallTarget(s.m, i).Some? && CallTarget(s.m, i).value.0.native
    requires AllowedRun(Execute(s, Op(i)), run)
    requires var s2 := RunAll(Execute(s, Op(i)), run);
      !s2.running && s2.natives == Execute(s, Op(i)).natives
    ensures var s2 := RunAll(Execute(s, Op(i)), run); var m3 := Execute(s2, Finish(XOK, ref)).m;
      && (s2.AtHome() <==> m3.k.base == s.m.k.base)
      && (!s2.AtHome() ==> m3.k.base > s.m.k.base)
      && (s2.AtHome() ==>
            && m3.k.sbase == m3.k.sp == s.m.k.sbase
            && m3.k.pc == s.m.k.pc + (if i.Call? then 2 else if i.CallR? then 3 else if i.CCall? then 4 else 5))
      && (s2.AtHome() && Allowed(s2, Finish(XOK, ref)) ==>
            Sound(Execute(s2, Finish(XOK, ref))) && Calls(m3.k) == Calls(s.m.k))
  {
    hide Inv, Calls, RunAll, AllowedRun, CallTarget, Exec, FinishNative, CanExecute, FinishFits, Evolves, InNative;
    TargetRuns(s.m, i);
    NativeEnters(s.m, i);
    StepKeepsInvariant(s, Op(i));
    var s1 := Execute(s, Op(i));
    var call := s1.natives[0];
    RunKeepsInvariant(s1, run);
    var s2 := RunAll(s1, run);
    InnermostActive(s2);
    ReturnsFrom(s2.m, call, ref);
    if s2.AtHome() && Allowed(s2, Finish(XOK, ref)) {
      StepKeepsInvariant(s2, Finish(XOK, ref));
      FinishOk(s2.m, call, XOK, ref);
      RunEvolves(s1, run);
      SameCallRunning(s1, run);
    }
  }

  /** Where a native function returns to. */
  lemma ReturnsFrom(m: Machine, call: ActiveCall, ref: nat)
    requires Inv(m) && call in Calls(m.k) && call.cf.f.native
    ensures m.k.base > 0 && m.k.HasFrame()
    ensures var m' := FinishNative(m, call, XOK, ref).m;
      && (m.k.base == call.base ==>
            && m.k.Cf().serial == call.cf.serial
            && (m'.k.base, m'.k.sbase, m'.k.sp, m'.k.pc)
               == (call.cf.rBase, call.cf.rSbase, call.cf.rSbase, call.cf.rPc))
      && (m.k.base != call.base ==> m'.k.base >= call.base)
  {
    hide ChainOk, Accounted, LimboOk, CallsOk, Calls, OwnedValues, LimboObjects, FinishNative;
    var i :| 0 <= i < |Calls(m.k)| && Calls(m.k)[i] == call;
    FirstIsTop(m.k);
    BelowOk(m.k);
    FinishRegisters(m, call, ref);
    if m.k.base == call.base {
      SameCall(m.k, call);
      NativeCounter(m.k);
    } else {
      assert i > 0;
      CallBases(m.k.Below(), i - 1);
    }
  }

  lemma CopyHost(m: Machine, v: Value)
    ensures CopyResult(m, v).host == m.host
  {
  }

  /** What RETURN and RETURNR come to before the result is delivered. */
  lemma ReturnPath(m: Machine, j: Instr) returns (m': Machine, result: int)
    requires Inv(m) && CanExecute(m, j) && (j.Return? || j.ReturnR?)
    ensures Exec(m, j) == Deliver(m', result)
    ensures result == if j.ReturnR? then m.k.Cf().result else -1
    ensures InvWith(m', Waiting(m'.k, result)) && Calls(m'.k) == Calls(m.k)[1..]
    ensures Waiting(m'.k, result) == if j.ReturnR? && result >= 0 then [m.Reg(j.a)] else []
    ensures m'.k.base == m.k.Cf().rBase && m'.k.sbase == m'.k.sp == m.k.Cf().rSbase && m'.k.pc == m.k.Cf().rPc
    ensures m'.host == m.host
  {
    hide ChainOk, Accounted, LimboOk, CallsOk, Calls, OwnedValues, LimboObjects, Deliver, ClearArgs, Leave,
         CleanLimbo, CleanVars, CopyResult, Count;
    AdvanceControl(m, Size(j), j);
    AdvanceSame(m, Size(j));
    var m0 := Advance(m, Size(j));
    var m1 := m0;
    result := -1;
    if j.ReturnR? {
      CopyResultOk(m0, m0.Reg(j.a));
      CopyHost(m0, m0.Reg(j.a));
      TopCall(m0.k);
      CallLinksOk(m0.k, 0);
      m1, result := CopyResult(m0, m0.Reg(j.a)), m0.k.Cf().result;
    }
    m' := ReturnLeft(m1, result);
  }

  /** RETURN and RETURNR restore what the call frame recorded. */
  lemma ReturnRestores(m: Machine, j: Instr)
    requires Inv(m) && CanExecute(m, j) && (j.Return? || j.ReturnR?)
    ensures var m' := Exec(m, j).m; var cf := m.k.Cf();
      && Inv(m') && Calls(m'.k) == Calls(m.k)[1..]
      && m'.k.base == cf.rBase && m'.k.sbase == m'.k.sp == cf.rSbase && m'.k.pc == cf.rPc
  {
    hide ChainOk, Accounted, LimboOk, CallsOk, Calls, OwnedValues, LimboObjects, Deliver, Exec;
    var m', result := ReturnPath(m, j);
    DeliverRegisters(m', result);
    DeliverOk(m', result);
  }

  lemma DeliverRegisters(m: Machine, result: int)
    ensures var m' := Deliver(m, result).m;
      (m'.k.base, m'.k.sp, m'.k.sbase, m'.k.pc) == (m.k.base, m.k.sp, m.k.sbase, m.k.pc)
  {
  }

  // ---------------------------------------------------------------------------------------
  // Heap layout
  // ---------------------------------------------------------------------------------------

  /** Where the argument stack of call `i` begins and ends. */
  ghost function ArgsStart(k: Stack, i: nat): nat
    requires i <= |Calls(k)|
  {
    if i == 0 then k.sbase else Calls(k)[i - 1].cf.rSbase
  }

  ghost function ArgsEnd(k: Stack, i: nat): nat
    requires i <= |Calls(k)|
  {
    if i == 0 then k.sp else Calls(k)[i - 1].cf.rSp
  }

  /** The regions of all active calls lie in the heap one after the other: for each call, from
      the end of its caller's arguments up, the clean table, the call frame, the registers, and
      its own arguments. The clean table has room for all entries it can get. */
  lemma {:induction false} RegionsOrdered(k: Stack, i: nat)
    requires ChainOk(k) && i < |Calls(k)|
    ensures var c := Calls(k)[i];
      && ArgsStart(k, i + 1) <= ArgsEnd(k, i + 1) == c.cf.cleantab
      && c.cf.cleantab + TableCells(CleanSize(c.cf.f)) == c.base - CFREGS
      && c.base <= c.base + FrameSize(c.cf.f) == ArgsStart(k, i) <= ArgsEnd(k, i) <= k.sp <= |k.heap|
      && CleanSize(c.cf.f) + 1 <= TableCells(CleanSize(c.cf.f)) * VALUE_SIZE
      && k.heap[c.cf.cleantab].Table?
      && |k.heap[c.cf.cleantab].bytes| == TableCells(CleanSize(c.cf.f)) * VALUE_SIZE
    decreases i
  {
    hide LinksOk, DistinctVars, HoldsValues;
    FrameBelowSp(k);
    assert LayoutOk(k) && LayoutChain(k) && LinkChain(k);
    var b := k.Below();
    assert Calls(k) == [ActiveCall(k.base, k.Cf().(limbo := []))] + Calls(b);
    if i > 0 {
      RegionsOrdered(b, i - 1);
      assert ArgsStart(k, i) == ArgsStart(b, i - 1) && ArgsEnd(k, i) == ArgsEnd(b, i - 1);
      assert ArgsStart(k, i + 1) == ArgsStart(b, i) && ArgsEnd(k, i + 1) == ArgsEnd(b, i);
    }
  }

  /** In every reachable state. */
  lemma RegionsDisjoint(heapsize: nat, statics: nat, run: seq<Step>, i: nat, j: nat)
    requires heapsize > 0 && AllowedRun(Opened(heapsize, statics), run)
    requires i < j < |Calls(RunAll(Opened(heapsize, statics), run).m.k)|
    ensures var k := RunAll(Opened(heapsize, statics), run).m.k;
      && ArgsEnd(k, j) <= Calls(k)[i].cf.cleantab < Calls(k)[i].base <= ArgsEnd(k, i) <= k.sp <= |k.heap|
  {
    hide Opened, RunAll, AllowedRun, ChainOk, Accounted, LimboOk, CallsOk;
    InitialInvariant(heapsize, statics);
    RunKeepsInvariant(Opened(heapsize, statics), run);
    RegionsAbove(RunAll(Opened(heapsize, statics), run).m.k, i, j);
  }

  lemma {:induction false} RegionsAbove(k: Stack, i: nat, j: nat)
    requires ChainOk(k) && i < j < |Calls(k)|
    ensures ArgsEnd(k, j) <= Calls(k)[i].cf.cleantab < Calls(k)[i].base <= ArgsEnd(k, i) <= k.sp <= |k.heap|
    decreases j - i
  {
    hide ChainOk, Calls;
    RegionsOrdered(k, i);
    if i + 1 < j {
      RegionsAbove(k, i + 1, j);
    }
  }

  // ---------------------------------------------------------------------------------------
  // Upvalues
  // ---------------------------------------------------------------------------------------

  /** In every reachable state: from each active call, following `n` upvalue links, for as many
      as its function needs, leads to the registers of a call further down that is still active
      and runs the n-th lexical ancestor of that function. */
  lemma UpvaluesAlive(heapsize: nat, statics: nat, run: seq<Step>, i: nat, n: nat)
    requires heapsize > 0 && AllowedRun(Opened(heapsize, statics), run)
    requires i < |Calls(RunAll(Opened(heapsize, statics), run).m.k)|
    requires n <= Calls(RunAll(Opened(heapsize, statics), run).m.k)[i].cf.f.need
    ensures var k := RunAll(Opened(heapsize, statics), run).m.k;
      exists j :: i <= j < |Calls(k)| && (n > 0 ==> i < j)
        && UvBase(k.heap, Calls(k)[i].base, n) == Calls(k)[j].base
        && Ancestor(Calls(k)[i].cf.f, n) == Some(Calls(k)[j].cf.f)
  {
    hide Opened, RunAll, AllowedRun, ChainOk, Accounted, LimboOk, CallsOk, Ancestor, UvBase;
    InitialInvariant(heapsize, statics);
    RunKeepsInvariant(Opened(heapsize, statics), run);
    var m := RunAll(Opened(heapsize, statics), run).m;
    var j := UpvaluesReachAncestor(m.k, m.next, i, n);
  }

  // ---------------------------------------------------------------------------------------
  // Results
  // ---------------------------------------------------------------------------------------

  /** What a function returns arrives in the register that the caller named. An object survives
      the cleaning up after the function: it is alive, and covered by the limbo list of the
      caller, or of a call further down. */
  lemma ReturnedValueArrives(m: Machine, a: nat)
    requires Inv(m) && CanExecute(m, ReturnR(a)) && m.k.Cf().result >= 0
    requires !InNative(m.k.Below())
    ensures var m' := Exec(m, ReturnR(a)).m; var v := m.Reg(a);
      && RegValue(m'.k.heap, m.k.Cf().result) == v
      && (v.Ref? ==> IsLive(m'.st, v) && v.o in m'.limboed)
  {
    hide ChainOk, Accounted, LimboOk, CallsOk, Calls, OwnedValues, LimboObjects, Receive, Count, Exec;
    var m1, result := ReturnPath(m, ReturnR(a));
    var v := m.Reg(a);
    CallerCall(m.k);
    EelFrame(m1, [v]);
    assert Waiting(m1.k, result) == [] + [v];
    ReceiveOk(m1, [], v);
    if v == Nil {
      ReceiveNil(m1);
    } else {
      WaitingCell(m1, result);
      ReceiveHeap(m1, v, result);
    }
    if v.Ref? {
      LimboedLive(Receive(m1, v), v);
    }
  }

  lemma CallerCall(k: Stack)
    requires ChainOk(k) && k.base > 0 && k.HasFrame() && !InNative(k.Below())
    ensures 1 < |Calls(k)| && !Calls(k)[1].cf.f.native
  {
    TopCall(k);
    BelowOk(k);
    TopCall(k.Below());
  }

  lemma ReceiveNil(m: Machine)
    ensures Receive(m, Nil) == m
  {
  }

  lemma WaitingCell(m1: Machine, result: nat)
    requires ChainOk(m1.k) && Waiting(m1.k, result) != [Nil]
    ensures result < |m1.k.heap| && m1.k.heap[result].Val?
  {
  }

  /** Receiving a value writes no register. */
  lemma ReceiveHeap(m: Machine, v: Value, j: nat)
    requires ChainOk(m.k) && j < |m.k.heap| && m.k.heap[j].Val? && m.k.HasFrame()
    ensures RegValue(Receive(m, v).k.heap, j) == RegValue(m.k.heap, j)
  {
  }

  /** Whatever is in limbo is alive. */
  lemma LimboedLive(m: Machine, v: Value)
    requires Inv(m) && v.Ref? && v.o in m.limboed
    ensures IsLive(m.st, v)
  {
    hide ChainOk, Accounted, CallsOk, Calls, OwnedValues, LimboObjects, Count;
    RootsCount(m, [], v.o);
    assert Roots(m) + [] == Roots(m);
    assert Count(AsRefs(LimboObjects(m.k)), v.o) == 1;
    RootedLive(m, [], v);
  }
}
