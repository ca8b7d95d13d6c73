/** The rules for code can be met: a short run that follows them, up to a state in which RETX is
    about to leave a function from inside a try block. */
module SampleRun {
  import opened Values
  import opened ObjectStore
  import opened CallStack
  import opened Frames
  import opened MachineState
  import opened CallLinks
  import opened Instructions
  import opened NativeCode
  import opened LeavingCalls
  import opened Unwinding
  import opened Safety
  import opened Steps
  import opened NativeSteps
  import opened Runs
  import opened ExceptionTheorems
  import opened BlockReturns
  import opened CallTheorems
  import opened DataFlow
  import opened LimboTheorems

  /** A function without arguments, results and upvalues, with one register and one variable. */
  function Simple(id: nat): (f: Function)
    ensures WellFormedFunction(f)
  {
    Function(id, false, false, 0, 0, 0, 1, 1, None, 0, [])
  }

  /** Native code calls a function, which enters a try block. */
  function Sample(): seq<Step> {
    [Native(Invoke(Simple(0))), Op(Try(Simple(1), Simple(2)))]
  }

  /** One more step that follows the rules. */
  lemma {:induction false} Extend(s: Session, run: seq<Step>, step: Step)
    requires AllowedRun(s, run) && Allowed(RunAll(s, run), step)
    ensures AllowedRun(s, run + [step]) && RunAll(s, run + [step]) == Execute(RunAll(s, run), step)
    decreases |run|
  {
    hide Allowed, Execute;
    if run == [] {
      assert [step][1..] == [];
      assert AllowedRun(Execute(s, step), [step][1..]);
      assert RunAll(Execute(s, step), [step][1..]) == Execute(s, step);
      assert [] + [step] == [step];
    } else {
      Extend(Execute(s, run[0]), run[1..], step);
      assert (run + [step])[1..] == run[1..] + [step];
    }
  }

  /** Native code can call a function with suitable arguments, and without a result being wanted. The
      function starts in this state. */
  lemma Starts(s: Session, f: Function)
    requires Sound(s) && !s.running && PassedCode(s.m, f) == XOK && s.m.Reg(0) == Nil
    requires WellFormedFunction(f) && !f.native && f.need == 0
    ensures Allowed(s, Native(Invoke(f)))
    ensures var s1 := Execute(s, Native(Invoke(f))); var k := s1.m.k;
      && Sound(s1) && s1.running && s1.natives == s.natives && !InNative(k) && k.base > s.m.k.base
      && k.Cf().f == f && k.Cf().mark == PLAIN && k.Cf().result == -1 && k.Vars() == [] && k.sp == k.sbase
      && s.m.k.sbase <= s.m.k.sp && (k.Cf().argv, k.Cf().argc) == (s.m.k.sbase, s.m.k.sp - s.m.k.sbase)
      && forall j: nat :: j < s.m.k.sp ==> RegValue(k.heap, j) == RegValue(s.m.k.heap, j)
  {
    hide ChainOk, Accounted, LimboOk, CallsOk, Calls, OwnedValues, LimboObjects, FreeSlot, Enter, CanEnter,
         SetException, WellFormedFunction, NativesActive, Evolves, NativesStay, PassedCode;
    ValuesAbove(s.m.k);
    InvokeEnters(s.m, f);
    EnterFrame(s.m, f, -1, 0, PLAIN);
    StepKeepsInvariant(s, Native(Invoke(f)));
  }

  lemma AtStart(heapsize: nat, statics: nat)
    requires heapsize > 0
    ensures var s := Opened(heapsize, statics);
      Sound(s) && !s.running && s.natives == [] && s.AtHome() && s.m.k.sp == s.m.k.sbase && s.m.Reg(0) == Nil
  {
    hide Inv, NativesActive;
    InitialInvariant(heapsize, statics);
  }

  /** There is a run that follows the rules and ends with RETX in a try block: what the theorems
      about RETX assume does happen. */
  lemma BlocksCanBeLeft(heapsize: nat, statics: nat)
    requires heapsize > 0
    ensures AllowedRun(Opened(heapsize, statics), Sample())
    ensures var s := RunAll(Opened(heapsize, statics), Sample());
      && Sound(s) && Allowed(s, Op(RetX)) && InBlocks(s.m, 1)
  {
    hide Inv, NativesActive, Calls, FreeSlot, Exec, CanExecute, NativeExec, WellBehaved, Opened;
    var s0 := Opened(heapsize, statics);
    AtStart(heapsize, statics);
    Starts(s0, Simple(0));
    var i, op := Try(Simple(1), Simple(2)), Native(Invoke(Simple(0)));
    var s1 := Execute(s0, op);
    TryAllowed(s1.m);
    TryEnters(s1.m, Simple(1), Simple(2));
    StepKeepsInvariant(s1, Op(i));
    TopOf(s1.m);
    RetXAllowed(Exec(s1.m, i).m);
    Extend(s0, [], op);
    assert [] + [op] == [op] && [op] + [Op(i)] == Sample();
    Extend(s0, [op], Op(i));
  }

  lemma RetXAllowed(m: Machine)
    requires Inv(m) && !InNative(m.k) && 1 < |Calls(m.k)| && m.k.Cf().mark.InBlock()
    requires !Calls(m.k)[1].cf.mark.InBlock() && Calls(m.k)[1].cf.result == -1 && m.k.Cf().rSp == m.k.Cf().rSbase
    ensures CanExecute(m, RetX) && InBlocks(m, 1)
  {
    hide ChainOk, Accounted, LimboOk, CallsOk, Calls, OwnedValues, LimboObjects;
    TopCall(m.k);
    var n := FunctionFrameFound(m.k);
    assert n == 1;
    assert Calls(m.k)[0].cf.result == Calls(m.k)[1].cf.result;
  }

  lemma TryAllowed(m: Machine)
    requires Inv(m) && !InNative(m.k) && m.k.Cf().result == -1
    ensures CanExecute(m, Try(Simple(1), Simple(2)))
  {
    hide ChainOk, Accounted, LimboOk, CallsOk;
  }

  // ---------------------------------------------------------------------------------------
  // A code that scripts should not throw
  // ---------------------------------------------------------------------------------------

  /** A function that returns something, with one register. */
  function Valued(id: nat): (f: Function)
    ensures WellFormedFunction(f)
  {
    Function(id, false, true, 0, 0, 0, 1, 1, None, 0, [])
  }

  /** A function has an object in a register, and calls another one for a result in the same
      register. That one is about to throw the number that is the code XRETURN. */
  function BadThrow(): seq<Step> {
    [Native(Invoke(Simple(0))), Op(New(0)), Op(CCallR(0, 0, Valued(1))), Op(Ldi(0, XRETURN))]
  }

  /** NEW makes an object and leaves it in a register. */
  lemma NewMakes(m: Machine, a: nat)
    requires Inv(m) && CanExecute(m, New(a))
    ensures var m1 := Exec(m, New(a)).m;
      && Exec(m, New(a)).Continue? && Inv(m1) && !InNative(m1.k) && m1.k.base == m.k.base
      && m1.k.Cf().f == m.k.Cf().f && m1.k.Vars() == m.k.Vars() && m1.Reg(a) == Ref(|m.st|)
  {
    hide ChainOk, Accounted, LimboOk, CallsOk, Calls, OwnedValues, LimboObjects, ClearArgs, Construct, WriteReg,
         Arguments, Receive, Exec, ValueCoded, Temp;
    NewIs(m, a);
    AdvanceSame(m, 3);
    AdvanceValue(m, 3, New(a));
    var m0 := Advance(m, 3);
    TempOf(m0, a);
    NewOk(m0, a);
    var o := |m.st|;
    var mc := m0.(st := Construct(m0.st, Arguments(m0.k)));
    ConstructedChain(mc, m0, a, Ref(o));
    RegisterReceived(mc, a, Ref(o));
    NewRegisters(m, Receive(WriteReg(mc, a, Ref(o)), Ref(o)), Exec(m, New(a)).m, a);
  }

  lemma TempOf(m: Machine, a: nat)
    requires m.k.HasFrame() && WellCoded(m, New(a))
    ensures Temp(m, a) && a < FrameSize(m.k.Cf().f)
  {
  }

  lemma NewIs(m: Machine, a: nat)
    requires !InNative(m.k)
    ensures var m0, o := Advance(m, 3), |m.st|;
      Exec(m, New(a))
      == Continue(ClearArgs(Receive(WriteReg(m0.(st := Construct(m0.st, Arguments(m0.k))), a, Ref(o)), Ref(o))))
  {
    hide ClearArgs, Construct, WriteReg, Arguments, Receive;
  }

  lemma NewRegisters(m: Machine, mr: Machine, m1: Machine, a: nat)
    requires m1 == ClearArgs(mr) && !InNative(mr.k) && mr.k.base == m.k.base
    ensures !InNative(m1.k) && m1.k.base == m.k.base && m1.k.Cf() == mr.k.Cf() && m1.k.Vars() == mr.k.Vars()
    ensures m1.Reg(a) == mr.Reg(a)
  {
    hide ClearArgs;
    OnlyArgsCleared(mr);
  }

  lemma ConstructedChain(mc: Machine, m: Machine, a: nat, v: Value)
    requires Inv(m) && !InNative(m.k) && Temp(m, a) && mc == m.(st := mc.st) && v.Ref?
    ensures var mr := Receive(WriteReg(mc, a, v), v);
      && !InNative(mr.k) && mr.k.base == m.k.base && mr.k.Cf().f == m.k.Cf().f && mr.k.Vars() == m.k.Vars()
  {
    hide Accounted, LimboOk, CallsOk, Calls, OwnedValues, LimboObjects, ChainOk;
    RegisterCell(m, a);
    WriteKeepsFrame(m, m.k.base + a, v);
    WriteOk(m.k, m.k.base + a, v);
    ReceivedFrame(WriteReg(mc, a, v), v);
  }

  lemma ReceivedFrame(m: Machine, v: Value)
    requires ChainOk(m.k) && !InNative(m.k) && v.Ref?
    ensures var m' := Receive(m, v);
      && !InNative(m'.k) && m'.k.base == m.k.base && m'.k.Cf().f == m.k.Cf().f && m'.k.Vars() == m.k.Vars()
  {
    hide Calls, OwnedValues, LimboObjects, ChainOk;
    LimboChanged(m.k, [v.o] + m.k.Cf().limbo);
  }

  /** The call puts its result where the object is. */
  lemma CallOverObject(m: Machine)
    requires Inv(m) && !InNative(m.k) && m.k.Cf().f == Simple(0) && m.k.Vars() == [] && m.Reg(0).Ref?
    ensures CanExecute(m, CCallR(0, 0, Valued(1)))
    ensures var m1 := Exec(m, CCallR(0, 0, Valued(1))).m;
      && Exec(m, CCallR(0, 0, Valued(1))).Continue? && Inv(m1) && !InNative(m1.k)
      && m1.k.Cf().f == Valued(1) && m1.k.Vars() == []
      && 0 <= m1.k.Cf().result < m1.k.base && RegValue(m1.k.heap, m1.k.Cf().result).Ref?
  {
    hide ChainOk, Accounted, LimboOk, CallsOk, Calls, OwnedValues, LimboObjects, Exec;
    var i := CCallR(0, 0, Valued(1));
    RegisterCell(m, 0);
    CallEnters(m, i);
    ArgumentCells(m, i);
    FrameBelowSp(Exec(m, i).m.k);
  }

  lemma CodeLoaded(m: Machine, a: nat, n: int)
    requires Inv(m) && !InNative(m.k) && Temp(m, a)
    ensures CanExecute(m, Ldi(a, n))
    ensures var m1 := Exec(m, Ldi(a, n)).m;
      && Exec(m, Ldi(a, n)).Continue? && Inv(m1) && !InNative(m1.k) && m1.k.base == m.k.base && m1.k.Cf() == m.k.Cf()
      && m1.k.Vars() == m.k.Vars() && m1.Reg(a) == Integer(n)
      && forall j: nat :: j != m.k.base + a ==> RegValue(m1.k.heap, j) == RegValue(m.k.heap, j)
  {
    hide ChainOk, Accounted, LimboOk, CallsOk, Calls, OwnedValues, LimboObjects;
    AdvanceSame(m, 4);
    WriteTempOk(Advance(m, 4), [], a, Integer(n));
    RegisterCell(m, a);
    assert Exec(m, Ldi(a, n)).m.k.heap == m.k.heap[m.k.base + a := Val(Integer(n))];
  }

  /** The interpreter goes on after an instruction that calls no native function. */
  lemma GoesOn(s: Session, i: Instr)
    requires Sound(s) && s.running && CanExecute(s.m, i) && Exec(s.m, i).Continue? && !InNative(Exec(s.m, i).m.k)
    ensures Allowed(s, Op(i)) && Execute(s, Op(i)) == s.(m := Exec(s.m, i).m) && Sound(Execute(s, Op(i)))
  {
    hide Inv, NativesActive, CanExecute, Exec;
    StepKeepsInvariant(s, Op(i));
  }

  /** There is a run that follows the rules and ends where a script can throw a number that
      spoils the reference counts: the object that happens to be in the slot for the result is
      received although nobody has taken a reference to it. */
  lemma ThrowCanSpoil(heapsize: nat, statics: nat)
    requires heapsize > 0
    ensures AllowedRun(Opened(heapsize, statics), BadThrow())
    ensures var s := RunAll(Opened(heapsize, statics), BadThrow());
      && Sound(s) && s.running && !InNative(s.m.k) && ThrowCoded(s.m, 0) && s.m.Reg(0) == Integer(XRETURN)
      && !Inv(Exec(s.m, Throw(0)).m)
  {
    hide ChainOk, Accounted, LimboOk, CallsOk, Calls, OwnedValues, LimboObjects, NativesActive, Exec, CanExecute,
         NativeExec, WellBehaved, Roots, ReturnX, Opened, Execute, Allowed;
    var s0, run := Opened(heapsize, statics), BadThrow();
    AtStart(heapsize, statics);
    Starts(s0, Simple(0));
    Extend(s0, [], run[0]);
    assert [] + [run[0]] == run[..1];
    var s1 := RunAll(s0, run[..1]);
    NewAllowed(s1.m);
    NewMakes(s1.m, 0);
    GoesOn(s1, New(0));
    Extend(s0, run[..1], run[1]);
    assert run[..1] + [run[1]] == run[..2];
    var s2 := RunAll(s0, run[..2]);
    CallOverObject(s2.m);
    GoesOn(s2, CCallR(0, 0, Valued(1)));
    Extend(s0, run[..2], run[2]);
    assert run[..2] + [run[2]] == run[..3];
    var s3 := RunAll(s0, run[..3]);
    CodeLoaded(s3.m, 0, XRETURN);
    GoesOn(s3, Ldi(0, XRETURN));
    Extend(s0, run[..3], run[3]);
    assert run[..3] + [run[3]] == run;
    ThrowReturnIff(RunAll(s0, run).m, 0);
  }

  lemma NewAllowed(m: Machine)
    requires !InNative(m.k) && m.k.Cf().f == Simple(0) && m.k.Vars() == []
    ensures CanExecute(m, New(0))
  {
  }

  // ---------------------------------------------------------------------------------------
  // Native code away from home
  // ---------------------------------------------------------------------------------------

  /** A native function without arguments and results. */
  function Host(id: nat): (f: Function)
    ensures WellFormedFunction(f)
  {
    Function(id, true, false, 0, 0, 0, 0, 0, None, 0, [])
  }

  /** A function with two registers, one of which becomes a variable. */
  function Keeper(id: nat): (f: Function)
    ensures WellFormedFunction(f)
  {
    Function(id, false, false, 0, 0, 0, 2, 1, None, 0, [])
  }

  /** A native function calls an EEL function, which has an object in a variable in register 0 when
      it throws the number that is the code XEND. */
  function Astray(): seq<Step> {
    [Native(Invoke(Simple(0))), Op(CCall(0, Host(1))), Native(Reset), Native(Invoke(Keeper(2))), Op(New(1)),
     Op(Init(0, 1)), Op(Ldi(1, XEND)), Op(Throw(1))]
  }

  /** A native function takes control. */
  lemma HostStarts(s: Session, i: Instr)
    requires Sound(s) && s.running && !InNative(s.m.k) && i == CCall(0, Host(1))
    ensures Allowed(s, Op(i))
    ensures var s1 := Execute(s, Op(i));
      && Sound(s1) && !s1.running && |s1.natives| == |s.natives| + 1 && s1.AtHome() && InNative(s1.m.k)
      && s1.m.k.base > 0
  {
    hide ChainOk, Accounted, LimboOk, CallsOk, Calls, OwnedValues, LimboObjects, NativesActive, Exec, Ancestor;
    NativeEnters(s.m, i);
    StepKeepsInvariant(s, Op(i));
  }

  /** It begins its call as every `eel_callf` does. */
  lemma Resets(s: Session)
    requires Sound(s) && !s.running && InNative(s.m.k) && s.m.k.base > 0
    ensures Allowed(s, Native(Reset))
    ensures var s1 := Execute(s, Native(Reset));
      && Sound(s1) && s1 == s.(m := s1.m) && s1.m.k.base == s.m.k.base && s1.m.k.sp == s1.m.k.sbase
      && s1.m.Reg(0) == Nil
  {
    hide Accounted, LimboOk, CallsOk, Calls, OwnedValues, LimboObjects, NativesActive, LayoutChain, LinkChain, Owns;
    NativeCounter(s.m.k);
    NativeSlot(s.m.k);
    ValuesAbove(s.m.k);
    ArgsCleared(s.m);
    StepKeepsInvariant(s, Native(Reset));
  }

  lemma NewRooted(m: Machine, a: nat)
    requires Inv(m) && CanExecute(m, New(a))
    ensures Rooted(Exec(m, New(a)).m, Exec(m, New(a)).m.Reg(a))
  {
    hide ChainOk, Accounted, LimboOk, CallsOk, Calls, OwnedValues, LimboObjects, PerformValue, ValueCoded, Rooted;
    AdvanceSame(m, 3);
    AdvanceValue(m, 3, New(a));
    FetchCovers(Advance(m, 3), New(a), a);
    InstructionOk(m, New(a));
    var m1 := Exec(m, New(a)).m;
    if m1.Reg(a).Ref? { LimboRooted(m1, m1.Reg(a)); } else { PlainRooted(m1, m1.Reg(a)); }
  }

  /** The object in register 1 becomes the value of the variable in register 0. */
  lemma VariableMade(m: Machine)
    requires Inv(m) && !InNative(m.k) && m.k.Cf().f == Keeper(2) && m.k.Vars() == [] && Rooted(m, m.Reg(1))
    ensures CanExecute(m, Init(0, 1))
    ensures var m1 := Exec(m, Init(0, 1)).m;
      && Exec(m, Init(0, 1)).Continue? && Inv(m1) && !InNative(m1.k) && m1.k.base == m.k.base
      && m1.k.Cf().f == Keeper(2) && m1.k.Vars() == [0] && m1.Reg(0) == m.Reg(1)
  {
    hide ChainOk, Accounted, LimboOk, CallsOk, Calls, OwnedValues, LimboObjects, Own, AddVar, Rooted;
    InstructionOk(m, Init(0, 1));
    AdvanceSame(m, 3);
    var m0, v := Advance(m, 3), m.Reg(1);
    RootedLive(m0, [], v);
    TakeRefOk(m0, [], v);
    WriteTempOk(TakeRef(m0, v), [] + [v], 0, v);
    FirstAdded(WriteReg(TakeRef(m0, v), 0, v));
    assert m0.Reg(1) == v;
    assert Exec(m, Init(0, 1)) == Continue(AddVar(WriteReg(TakeRef(m0, v), 0, v), 0));
  }

  lemma FirstAdded(m: Machine)
    requires ChainOk(m.k) && !InNative(m.k) && m.k.Vars() == [] && m.k.Cf().f == Keeper(2)
    ensures var m' := AddVar(m, 0);
      && !InNative(m'.k) && m'.k.base == m.k.base && m'.k.Cf() == m.k.Cf() && m'.k.Vars() == [0]
      && m'.Reg(0) == m.Reg(0)
  {
    hide LinkChain, AddClean, DistinctVars;
    FrameBelowSp(m.k);
    RegisterCell(m, 0);
    FirstVar(m.k);
  }

  lemma TempHere(m: Machine, a: nat)
    requires m.k.HasFrame() && a < FrameSize(m.k.Cf().f) && a !in m.k.Vars()
    ensures Temp(m, a)
  {
  }

  /** XEND leaves everything in place. */
  lemma EndThrown(s: Session, a: nat)
    requires Sound(s) && s.running && !InNative(s.m.k) && a < FrameSize(s.m.k.Cf().f) && s.m.Reg(a) == Integer(XEND)
    ensures Allowed(s, Op(Throw(a)))
    ensures var s1 := Execute(s, Op(Throw(a)));
      && Sound(s1) && !s1.running && s1.natives == s.natives && s1.m.k == s.m.k.(pc := s.m.k.pc + 2)
  {
    hide Inv, NativesActive, Calls, Exec;
    var mx := ThrowRaises(s.m, a);
    StepKeepsInvariant(s, Op(Throw(a)));
  }

  /** There is a run that follows the rules and ends with a native function in control, but `base` at
      the frame of the EEL function that it has called. If it begins another call now then an
      object loses an owner without being disowned, and if it returns then the VM is not back
      at its caller, and has lost the references of the EEL function. */
  lemma NativeCanStray(heapsize: nat, statics: nat)
    requires heapsize > 0
    ensures AllowedRun(Opened(heapsize, statics), Astray())
    ensures var s := RunAll(Opened(heapsize, statics), Astray());
      && Sound(s) && !s.running && |s.natives| == 1 && !s.AtHome() && !InNative(s.m.k)
      && !Inv(ResetArgs(s.m)) && !Inv(Landing(s.m, XOK))
  {
    hide Inv, NativesActive, Calls, Opened, Execute, Allowed, AllowedRun, RunAll, ResetArgs, Landing, InNative,
         FirstIsFree, LeavesNothing;
    var s0, run := Opened(heapsize, statics), Astray();
    HostRuns(heapsize, statics);
    var s4 := RunAll(s0, run[..4]);
    var s7 := KeeperRuns(s0, s4);
    EndThrown(s7, 1);
    Extend(s0, run[..7], run[7]);
    assert run[..7] + [run[7]] == run;
    var s := RunAll(s0, run);
    StillIn(s7.m.k, s.m.k);
    ObjectHeld(s.m);
    ResetOk(s.m);
    LandingIff(s.m, XOK);
  }

  lemma StillIn(k: Stack, k': Stack)
    requires !InNative(k) && k' == k.(pc := k'.pc)
    ensures !InNative(k') && k'.base > 0 && k'.HasFrame() && k'.Vars() == k.Vars()
  {
  }

  /** The native function, up to the point where the EEL function starts. */
  lemma HostRuns(heapsize: nat, statics: nat)
    requires heapsize > 0
    ensures AllowedRun(Opened(heapsize, statics), Astray()[..4])
    ensures var s := RunAll(Opened(heapsize, statics), Astray()[..4]);
      && Sound(s) && s.running && |s.natives| == 1 && !InNative(s.m.k) && s.m.k.base > s.natives[0].base
      && s.m.k.Cf().f == Keeper(2) && s.m.k.Vars() == []
  {
    hide Inv, NativesActive, Calls, Opened, Execute, Allowed, InNative;
    var s0, run := Opened(heapsize, statics), Astray();
    AtStart(heapsize, statics);
    Starts(s0, Simple(0));
    Extend(s0, [], run[0]);
    assert [] + [run[0]] == run[..1];
    var s1 := RunAll(s0, run[..1]);
    HostStarts(s1, CCall(0, Host(1)));
    Extend(s0, run[..1], run[1]);
    assert run[..1] + [run[1]] == run[..2];
    var s2 := RunAll(s0, run[..2]);
    Resets(s2);
    Extend(s0, run[..2], run[2]);
    assert run[..2] + [run[2]] == run[..3];
    var s3 := RunAll(s0, run[..3]);
    Starts(s3, Keeper(2));
    Extend(s0, run[..3], run[3]);
    assert run[..3] + [run[3]] == run[..4];
  }

  /** The EEL function, up to the point where it throws. */
  lemma KeeperRuns(s0: Session, s4: Session) returns (s7: Session)
    requires AllowedRun(s0, Astray()[..4]) && s4 == RunAll(s0, Astray()[..4])
    requires Sound(s4) && s4.running && !InNative(s4.m.k) && s4.m.k.Cf().f == Keeper(2) && s4.m.k.Vars() == []
    ensures AllowedRun(s0, Astray()[..7]) && s7 == RunAll(s0, Astray()[..7])
    ensures Sound(s7) && s7.running && s7.natives == s4.natives && s7.m.k.base == s4.m.k.base && !InNative(s7.m.k)
    ensures s7.m.k.Cf().f == Keeper(2) && s7.m.k.Vars() == [0] && s7.m.Reg(0).Ref? && s7.m.Reg(1) == Integer(XEND)
  {
    hide ChainOk, Accounted, LimboOk, CallsOk, Calls, OwnedValues, LimboObjects, NativesActive, Exec, CanExecute,
         NativeExec, WellBehaved, Roots, Execute, Allowed, Rooted;
    var run := Astray();
    KeeperNew(s4.m);
    NewMakes(s4.m, 1);
    NewRooted(s4.m, 1);
    GoesOn(s4, New(1));
    Extend(s0, run[..4], run[4]);
    assert run[..4] + [run[4]] == run[..5];
    var s5 := RunAll(s0, run[..5]);
    VariableMade(s5.m);
    GoesOn(s5, Init(0, 1));
    Extend(s0, run[..5], run[5]);
    assert run[..5] + [run[5]] == run[..6];
    var s6 := RunAll(s0, run[..6]);
    TempHere(s6.m, 1);
    CodeLoaded(s6.m, 1, XEND);
    GoesOn(s6, Ldi(1, XEND));
    Extend(s0, run[..6], run[6]);
    assert run[..6] + [run[6]] == run[..7];
    s7 := RunAll(s0, run[..7]);
  }

  lemma KeeperNew(m: Machine)
    requires !InNative(m.k) && m.k.Cf().f == Keeper(2) && m.k.Vars() == []
    ensures CanExecute(m, New(1))
  {
  }

  /** The variable in register 0 has an object. */
  lemma ObjectHeld(m: Machine)
    requires Inv(m) && !InNative(m.k) && m.k.Vars() == [0] && m.Reg(0).Ref?
    ensures !FirstIsFree(m) && !LeavesNothing(m, XOK)
  {
    hide Accounted, LimboOk, CallsOk, Calls, OwnedValues, LimboObjects, LayoutChain, LinkChain, ArgValues;
    assert VarValues(m.k.heap, m.k.base, [0]) == [m.Reg(0)] + VarValues(m.k.heap, m.k.base, [0][..0]);
    assert m.Reg(0) in FrameValues(m.k);
  }

  // ---------------------------------------------------------------------------------------
  // A function that does not find its upvalues
  // ---------------------------------------------------------------------------------------

  function Outer(): (f: Function)
    ensures WellFormedFunction(f)
  {
    Function(3, false, false, 0, 0, 0, 1, 1, None, 0, [])
  }

  /** A function that uses variables of the one that it is declared in. */
  function Inner(): (f: Function)
    ensures WellFormedFunction(f)
  {
    Function(4, false, false, 0, 0, 0, 1, 1, Some(Outer()), 1, [])
  }

  /** A function with one argument. */
  function Taker(): (f: Function)
    ensures WellFormedFunction(f)
  {
    Function(5, false, false, 1, 0, 0, 1, 1, None, 0, [])
  }

  /** A function that is declared in another one is passed to a third, which is about to call it. */
  function Orphan(): seq<Step> {
    [Native(Pass(Callable(Inner()))), Native(Invoke(Taker())), Op(GetArgI(0, 0))]
  }

  lemma FunctionPassed(s: Session, f: Function)
    requires Sound(s) && !s.running && s.natives == [] && s.m.k.sp == s.m.k.sbase && s.m.Reg(0) == Nil
    requires s.AtHome()
    ensures Allowed(s, Native(Pass(Callable(f))))
    ensures var s1 := Execute(s, Native(Pass(Callable(f)))); var k := s1.m.k;
      && Sound(s1) && !s1.running && s1.m.Reg(0) == Nil && k.sp == k.sbase + 1
      && RegValue(k.heap, k.sbase) == Callable(f)
  {
    hide Accounted, LimboOk, CallsOk, Calls, OwnedValues, LimboObjects, NativesActive, LinkChain;
    StepKeepsInvariant(s, Native(Pass(Callable(f))));
  }

  lemma ArgumentTaken(m: Machine, v: Value)
    requires Inv(m) && !InNative(m.k) && m.k.Cf().f == Taker() && m.k.Vars() == [] && m.k.sp == m.k.sbase
    requires m.k.Cf().argc == 1 && RegValue(m.k.heap, m.k.Cf().argv) == v && !v.Ref?
    ensures CanExecute(m, GetArgI(0, 0))
    ensures var m1 := Exec(m, GetArgI(0, 0)).m;
      && Exec(m, GetArgI(0, 0)).Continue? && Inv(m1) && !InNative(m1.k) && m1.k.base == m.k.base
      && m1.k.Cf().f == Taker() && m1.k.sp == m1.k.sbase && m1.Reg(0) == v
  {
    hide ChainOk, Accounted, LimboOk, CallsOk, Calls, OwnedValues, LimboObjects, Exec;
    AdvanceSame(m, 3);
    TempHere(m, 0);
    WriteTempOk(Advance(m, 3), [], 0, v);
    PlainArgument(m, v);
    InstructionOk(m, GetArgI(0, 0));
  }

  /** Fetching an argument that is no object just writes a register. */
  lemma PlainArgument(m: Machine, v: Value)
    requires !InNative(m.k) && m.k.Cf().argc == 1 && RegValue(m.k.heap, m.k.Cf().argv) == v && !v.Ref?
    ensures Exec(m, GetArgI(0, 0)) == Continue(WriteReg(Advance(m, 3), 0, v))
  {
    hide WriteReg;
  }

  /** There is a run that follows the rules and ends where a function is about to call another one
      that takes the registers of its caller for those of the function that it is declared in. */
  lemma CallCanMislead(heapsize: nat, statics: nat)
    requires heapsize > 0
    ensures AllowedRun(Opened(heapsize, statics), Orphan())
    ensures var s := RunAll(Opened(heapsize, statics), Orphan()); var m' := Exec(s.m, Call(0)).m;
      && Sound(s) && s.running && !InNative(s.m.k) && CallCoded(s.m, Call(0)) && s.m.Reg(0) == Callable(Inner())
      && Exec(s.m, Call(0)).Continue? && m'.k.HasFrame() && m'.k.Cf().f == Inner()
      && UvBase(m'.k.heap, m'.k.base, 1) == s.m.k.base && s.m.k.HasFrame() && s.m.k.Cf().f != Outer()
      && InvButLinks(m') && !Inv(m')
  {
    hide Inv, InvButLinks, NativesActive, Calls, Opened, Execute, Allowed, Exec, CanExecute;
    var s0, run := Opened(heapsize, statics), Orphan();
    AtStart(heapsize, statics);
    FunctionPassed(s0, Inner());
    Extend(s0, [], run[0]);
    assert [] + [run[0]] == run[..1];
    var s1 := RunAll(s0, run[..1]);
    Starts(s1, Taker());
    Extend(s0, run[..1], run[1]);
    assert run[..1] + [run[1]] == run[..2];
    var s2 := RunAll(s0, run[..2]);
    ArgumentTaken(s2.m, Callable(Inner()));
    GoesOn(s2, GetArgI(0, 0));
    Extend(s0, run[..2], run[2]);
    assert run[..2] + [run[2]] == run;
    var s := RunAll(s0, run);
    CallIff(s.m, Call(0));
    ValueEnters(s.m, Call(0));
    CallIsEnter(s.m, Call(0));
  }
}
