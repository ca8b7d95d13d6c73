/** Single steps, of EEL code or of native code, and whole runs. */
module Runs {
  import opened Values
  import opened ObjectStore
  import opened CallStack
  import opened MachineState
  import opened Instructions
  import opened NativeCode
  import opened Safety
  import opened ExceptionFlow
  import opened Steps
  import opened NativeSteps

  /** `Finish(x, ref)` is the end of `call_c`: the innermost native function returns, with exception
      code `x`, or if that is 0 and it has a result then with what reference `ref` of those that
      native code holds refers to. */
  datatype Step = Op(i: Instr) | Native(op: NativeOp) | Finish(x: int, ref: nat)

  /** The VM, and what the C stack says: the calls of native functions that have not returned,
      innermost first, and whether the interpreter is running or native code is in control. */
  datatype Session = Session(m: Machine, natives: seq<ActiveCall>, running: bool) {
    /** Where the native function that is in control, or the top level, has its frame. */
    function Home(): nat {
      if natives == [] then 0 else natives[0].base
    }

    predicate AtHome() {
      m.k.base == Home()
    }
  }

  function Effect(s: Session, step: Step): Outcome {
    match step
    case Op(i) => Exec(s.m, i)
    case Native(op) => NativeExec(s.m, op)
    case Finish(x, i) => if s.natives == [] then Continue(s.m) else FinishNative(s.m, s.natives[0], x, i)
  }

  /** The running call is new, and one of a native function. */
  predicate StartsNative(m: Machine, m': Machine) {
    m'.k.HasFrame() && m'.k.Cf().f.native && m.next <= m'.k.Cf().serial
  }

  /** Native functions take control when they are called, and native code gets it back when the
      interpreter exits. The interpreter gets it from `Invoke`, and when a native function returns
      to it. */
  function Execute(s: Session, step: Step): Session {
    var r := Effect(s, step);
    match step
    case Op(_) =>
      if r.Continue? && StartsNative(s.m, r.m) then
        Session(r.m, [ActiveCall(r.m.k.base, r.m.k.Cf())] + s.natives, false)
      else Session(r.m, s.natives, r.Continue?)
    case Native(op) => Session(r.m, s.natives, op.Invoke? && r.Continue?)
    case Finish(_, _) => Session(r.m, if s.natives == [] then [] else s.natives[1..], r.Continue?)
  }

  /** The step may be taken: by whoever is in control, according to the rules. */
  ghost predicate Allowed(s: Session, step: Step) {
    match step
    case Op(i) => s.running && CanExecute(s.m, i)
    case Native(op) => !s.running && WellBehaved(s.m, op)
    case Finish(x, i) => !s.running && s.natives != [] && FinishFits(s.m, s.natives[0], x, i)
  }

  ghost predicate AllowedRun(s: Session, run: seq<Step>)
    decreases |run|
  {
    run == [] || (Allowed(s, run[0]) && AllowedRun(Execute(s, run[0]), run[1..]))
  }

  function RunAll(s: Session, run: seq<Step>): Session
    decreases |run|
  {
    if run == [] then s else RunAll(Execute(s, run[0]), run[1..])
  }

  /** The calls of native functions that have not returned are active. */
  ghost predicate NativesActive(s: Session) {
    && (forall c :: c in s.natives ==> c in Calls(s.m.k) && c.cf.f.native)
    && (forall i, j :: 0 <= i < j < |s.natives| ==> s.natives[j].cf.serial < s.natives[i].cf.serial)
  }

  ghost predicate Sound(s: Session) {
    Inv(s.m) && NativesActive(s)
  }

  // ---------------------------------------------------------------------------------------
  // Instructions
  // ---------------------------------------------------------------------------------------

  lemma AdvanceSame(m: Machine, n: nat)
    requires Inv(m) && !InNative(m.k)
    ensures var m' := Advance(m, n);
      && Inv(m') && !InNative(m'.k) && m'.k.Cf() == m.k.Cf() && m'.k.Vars() == m.k.Vars()
      && SameCalls(m, m')
      && (forall v: Value :: Rooted(m', v) == Rooted(m, v))
      && (forall v: Value, w: Value :: KeepsOwner(m', v, w) == KeepsOwner(m, v, w))
      && (forall j: nat :: Owns(m'.k, j) == Owns(m.k, j))
  {
    hide ChainOk, Accounted, LimboOk, CallsOk, Calls, OwnedValues, LimboObjects, Owns, Count, UvBase, Roots,
         WellFormedFunction, HandlerFits;
    AdvanceOk(m, m.k.pc + n);
  }

  lemma AdvanceValue(m: Machine, n: nat, i: Instr)
    requires Inv(m) && !InNative(m.k) && !IsControl(i) && WellCoded(m, i)
    ensures var m' := Advance(m, n);
      Inv(m') && !InNative(m'.k) && WellCoded(m', i)
  {
    hide ChainOk, Accounted, LimboOk, CallsOk, Calls, OwnedValues, LimboObjects, Owns, Count, UvBase, Roots, Rooted,
         KeepsOwner;
    AdvanceSame(m, n);
  }

  lemma AdvanceControl(m: Machine, n: nat, i: Instr)
    requires Inv(m) && !InNative(m.k) && IsControl(i) && WellCoded(m, i)
    ensures var m' := Advance(m, n);
      Inv(m') && !InNative(m'.k) && WellCoded(m', i)
  {
    hide ChainOk, Accounted, LimboOk, CallsOk, Calls, OwnedValues, LimboObjects, Owns, Count, UvBase, Roots, Rooted,
         KeepsOwner, WellFormedFunction, HandlerFits, Ancestor;
    AdvanceSame(m, n);
  }

  lemma PerformArgOk(m: Machine, i: Instr)
    requires Inv(m) && !InNative(m.k) && (i.GetArgI? || i.SetArgI?) && WellCoded(m, i)
    ensures Goes(m, PerformValue(m, i).m)
  {
    hide ChainOk, Accounted, LimboOk, CallsOk, Calls, OwnedValues, LimboObjects, Owns, Count, UvBase, Roots, Temp,
         Rooted, KeepsOwner, FreeSlot, WriteReg, Own, Release, PushValue, AddVar, AssignCell, CleanVars, Grab,
         TakeRef, GiveUp, GetItem, SetItem, ThrowCode, ClearArgs, Receive, Construct;
    match i
    case GetArgI(a, b) =>
      if b < m.Cf().argc {
        ArgIsOwned(m, b);
        SlotIsLive(m, m.Cf().argv + b);
        ReadOk(m, a, RegValue(m.k.heap, m.Cf().argv + b));
      } else if DefaultOf(m.Cf().f, b).Some? {
        WriteTempOk(m, [], a, Integer(DefaultOf(m.Cf().f, b).value));
      } else {
        ThrowCodeOk(m, XHIGHINDEX);
      }
    case SetArgI(a, b) =>
      if b < m.Cf().argc {
        ArgIsOwned(m, b);
        AssignCellOk(m, [], m.Cf().argv + b, m.Reg(a));
      } else {
        ThrowCodeOk(m, XHIGHINDEX);
      }
  }

  lemma PerformValueOk(m: Machine, i: Instr)
    requires Inv(m) && !InNative(m.k) && !IsControl(i) && WellCoded(m, i)
    ensures Goes(m, PerformValue(m, i).m)
  {
    hide ChainOk, Accounted, LimboOk, CallsOk, Calls, OwnedValues, LimboObjects, Owns, Count, UvBase, Roots, Temp,
         Rooted, KeepsOwner, FreeSlot, WriteReg, Own, Release, PushValue, AddVar, AssignCell, CleanVars, Grab,
         TakeRef, GiveUp, GetItem, SetItem, ThrowCode, ClearArgs, Receive, Construct;
    var base := m.k.base;
    match i
    case Ldi(a, n) => WriteTempOk(m, [], a, Integer(n));
    case Move(a, b) => WriteTempOk(m, [], a, m.Reg(b));
    case Push(a) => PushOk(m, m.Reg(a));
    case Init(a, b) => InitOk(m, a, m.Reg(b));
    case Assign(a, b) => VarIsOwned(m, a); AssignCellOk(m, [], base + a, m.Reg(b));
    case Clean(a) => CleanVarsOk(m, [], a);
    case GetUval(a, b, c) =>
      SlotIsLive(m, UvBase(m.k.heap, base, c) + b);
      ReadOk(m, a, RegValue(m.k.heap, UvBase(m.k.heap, base, c) + b));
    case SetUval(a, b, c) => AssignCellOk(m, [], UvBase(m.k.heap, base, c) + b, m.Reg(a));
    case GetVar(a, b) => StaticIsLive(m, b); ReadOk(m, a, m.statics[b]);
    case SetVar(a, b) => SetVarOk(m, b, m.Reg(a));
    case GetArgI(_, _) => PerformArgOk(m, i);
    case SetArgI(_, _) => PerformArgOk(m, i);
    case IndGet(a, b, c) => GetItemOk(m, a, m.Reg(b), m.Reg(c));
    case IndSet(a, b, c) => SetItemOk(m, m.Reg(a), m.Reg(b), m.Reg(c));
    case New(a) => NewOk(m, a);
  }

  lemma PerformControlOk(m: Machine, i: Instr)
    requires Inv(m) && !InNative(m.k) && IsControl(i) && WellCoded(m, i)
    ensures Goes(m, PerformControl(m, i).m)
  {
    hide ChainOk, Accounted, LimboOk, CallsOk, Calls, OwnedValues, LimboObjects, Owns, Count, UvBase, Roots, Temp,
         WellFormedFunction, HandlerFits, BlockFits, CalledAs, Rooted, KeepsOwner, FreeSlot, CallValue, CallFunction,
         ReturnWith, EnterBlock, Reschedule, ThrowCode, CopyResult, Leave, CleanLimbo, CleanVars, TakeRef, GiveUp;
    var base := m.k.base;
    match i
    case Call(a) => CallValueOk(m, m.Reg(a), -1);
    case CallR(a, b) => TempIsFree(m, b); CallValueOk(m, m.Reg(a), base + b);
    case CCall(levels, f) => CallFunctionOk(m, f, -1, levels);
    case CCallR(levels, b, f) => TempIsFree(m, b); CallFunctionOk(m, f, base + b, levels);
    case Return => ReturnWithOk(m, -1);
    case ReturnR(a) =>
      CopyResultOk(m, m.Reg(a));
      TopCall(m.k);
      CallLinksOk(m.k, 0);
      ReturnWithOk(CopyResult(m, m.Reg(a)), m.Cf().result);
    case Try(handler, f) => EnterBlockOk(m, f, Some(handler), false);
    case Untry(f) => EnterBlockOk(m, f, None, true);
    case Throw(a) => ThrowOk(m, m.Reg(a));
    case Retry =>
      RetryOk(m);
      var m1 := Leave(CleanLimbo(CleanVars(m, 0)));
      AdvanceOk(m1, if m1.k.pc >= TRY_SIZE then m1.k.pc - TRY_SIZE else 0);
    case RetX => ThrowCodeOk(m, XRETURN);
    case RetXR(a) => CopyResultOk(m, m.Reg(a)); ThrowCodeOk(CopyResult(m, m.Reg(a)), XRETURN);
  }

  // ---------------------------------------------------------------------------------------
  // The main invariant
  // ---------------------------------------------------------------------------------------

  /** Every instruction of well-formed code keeps the call chain well-formed and every reference
      accounted for, whatever exceptions it throws. */
  lemma InstructionOk(m: Machine, i: Instr)
    requires Inv(m) && CanExecute(m, i)
    ensures Goes(m, Exec(m, i).m)
  {
    hide ChainOk, Accounted, LimboOk, CallsOk, Calls, OwnedValues, LimboObjects, PerformValue, PerformControl,
         ValueCoded, ControlCoded;
    AdvanceSame(m, Size(i));
    if IsControl(i) {
      AdvanceControl(m, Size(i), i);
      PerformControlOk(Advance(m, Size(i)), i);
    } else {
      AdvanceValue(m, Size(i), i);
      PerformValueOk(Advance(m, Size(i)), i);
    }
  }

  lemma NativesKept(s: Session, m': Machine)
    requires Sound(s) && NativesStay(s.m, m')
    ensures NativesActive(s.(m := m')) && NativesActive(s.(m := m', running := !s.running))
  {
    hide Inv, Calls;
  }

  /** A native function that has just been called is the innermost. */
  lemma NativeStarts(s: Session, m': Machine)
    requires Sound(s) && Goes(s.m, m') && StartsNative(s.m, m')
    ensures NativesActive(Session(m', [ActiveCall(m'.k.base, m'.k.Cf())] + s.natives, false))
  {
    hide ChainOk, Accounted, LimboOk, Calls, UplinkOk;
    TopCall(m'.k);
    NativeCounter(m'.k);
    var c := ActiveCall(m'.k.base, m'.k.Cf());
    assert c == Calls(m'.k)[0];
    forall n | n in s.natives ensures n.cf.serial < c.cf.serial {
      var i :| 0 <= i < |Calls(s.m.k)| && Calls(s.m.k)[i] == n;
    }
  }

  /** The native functions further out outlive one that returns. */
  lemma NativeEnds(s: Session, m': Machine)
    requires Sound(s) && s.natives != [] && CallersStay(s.m, m')
    ensures NativesActive(Session(m', s.natives[1..], true)) && NativesActive(Session(m', s.natives[1..], false))
  {
    hide ChainOk, Accounted, LimboOk, Calls, UplinkOk;
    var calls := Calls(s.m.k);
    var p :| 0 <= p < |calls| && calls[p] == s.natives[0];
    forall c | c in s.natives[1..] ensures c in calls[1..] {
      var i :| 0 <= i < |calls| && calls[i] == c;
      var j :| 0 <= j < |s.natives[1..]| && s.natives[1..][j] == c;
      assert s.natives[j + 1] == c;
      assert i > 0 && calls[1..][i - 1] == c;
    }
  }

  /** Every step that follows the rules keeps the call chain well-formed and every reference
      accounted for, whatever exceptions it throws, and wherever native code is in control. */
  lemma StepKeepsInvariant(s: Session, step: Step)
    requires Sound(s) && Allowed(s, step)
    ensures Sound(Execute(s, step)) && Evolves(s.m, Execute(s, step).m)
  {
    hide Inv, NativesActive, Exec, NativeExec, FinishNative, CanExecute, WellBehaved, FinishFits, NativesStay,
         CallersStay, Evolves, StartsNative, Calls;
    match step
    case Op(i) =>
      InstructionOk(s.m, i);
      var r := Exec(s.m, i);
      if r.Continue? && StartsNative(s.m, r.m) {
        NativeStarts(s, r.m);
      } else {
        NativesKept(s, r.m);
      }
    case Native(op) =>
      NativeOk(s.m, op);
      NativesKept(s, NativeExec(s.m, op).m);
    case Finish(x, i) =>
      InnermostActive(s);
      FinishOk(s.m, s.natives[0], x, i);
      NativeEnds(s, FinishNative(s.m, s.natives[0], x, i).m);
  }

  lemma InnermostActive(s: Session)
    requires Sound(s) && s.natives != []
    ensures s.natives[0] in Calls(s.m.k) && s.natives[0].cf.f.native
  {
    hide Calls;
  }

  /** So does every run. */
  lemma {:induction false} RunKeepsInvariant(s: Session, run: seq<Step>)
    requires Sound(s) && AllowedRun(s, run)
    ensures Sound(RunAll(s, run))
    decreases |run|
  {
    hide Sound, Allowed, Execute, Evolves;
    if run != [] {
      StepKeepsInvariant(s, run[0]);
      RunKeepsInvariant(Execute(s, run[0]), run[1..]);
    }
  }

  /** The VM when it is opened: nothing but a register for a result (`vm_init`). */
  function InitialMachine(heapsize: nat, statics: nat): Machine
    requires heapsize > 0
  {
    var heap := [Val(Nil)] + seq(heapsize - 1, _ => Raw);
    Machine(Stack(heap, 0, 1, 1, 0), [], {}, Nil, seq(statics, _ => Nil), [], 0)
  }

  /** Native code is in control, at the top level. */
  function Opened(heapsize: nat, statics: nat): Session
    requires heapsize > 0
  {
    Session(InitialMachine(heapsize, statics), [], false)
  }

  lemma InitialInvariant(heapsize: nat, statics: nat)
    requires heapsize > 0
    ensures Sound(Opened(heapsize, statics)) && Opened(heapsize, statics).AtHome()
  {
    hide DistinctVars, UplinkOk;
    var m := InitialMachine(heapsize, statics);
    assert !m.k.HasFrame() && m.k.Vars() == [];
    assert OwnedValues(m.k) == [] && LimboObjects(m.k) == [];
    forall o: Obj ensures ObjectAccounted(m.st, Roots(m) + [], o) {
      RootsCount(m, [], o);
      OthersCount(m);
      CountPositive(m.statics, o);
    }
  }

  /** In every state that a run can reach, the reference count of each object is the number of
      variables, arguments, limbo lists, static variables, live container items and so on that
      own it. It is alive exactly as long as there are any, and was destroyed exactly once if
      there are none left. An object is on no more than one limbo list. */
  lemma ReferencesAccounted(heapsize: nat, statics: nat, run: seq<Step>, o: Obj)
    requires heapsize > 0 && AllowedRun(Opened(heapsize, statics), run)
    ensures var m := RunAll(Opened(heapsize, statics), run).m;
      && (o < |m.st| ==>
            && m.st[o].rc == Count(OwnedValues(m.k), o) + Count(AsRefs(LimboObjects(m.k)), o)
                             + Count(Others(m), o) + ItemCount(m.st, o)
            && m.st[o].live == (m.st[o].rc > 0)
            && m.st[o].disposals == (if m.st[o].rc > 0 then 0 else 1))
      && (o >= |m.st| ==> Count(Roots(m), o) == 0 && ItemCount(m.st, o) == 0)
      && Count(AsRefs(LimboObjects(m.k)), o) == (if o in m.limboed then 1 else 0)
  {
    hide RunAll, AllowedRun, Opened, Execute, OwnedValues, LimboObjects, Others, NativesActive;
    InitialInvariant(heapsize, statics);
    RunKeepsInvariant(Opened(heapsize, statics), run);
    var m := RunAll(Opened(heapsize, statics), run).m;
    RootsCount(m, [], o);
    assert Roots(m) + [] == Roots(m);
    assert ObjectAccounted(m.st, Roots(m) + [], o);
  }
}
