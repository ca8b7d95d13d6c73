/** The instructions of the VM that make calls, move references around or handle exceptions
    (`eel_run`, `eel__scheduler` and `unwind` in e_vm.c). */
module Instructions {
  import opened Values
  import opened ObjectStore
  import opened CallStack
  import opened MachineState

  // Exception codes (EEL_xno.h).
  const XOK: int := 0
  const XYIELD: int := 1
  const XEND: int := 3
  const XRETURN: int := 4
  const XOTHER: int := 6
  const XINTERNAL: int := 9
  const XFEWARGS: int := 24
  const XMANYARGS: int := 25
  const XTUPLEARGS: int := 26
  const XNORESULT: int := 27
  const XCANTINDEX: int := 15
  const XNOMETAMETHOD: int := 19
  const XNEEDOBJECT: int := 32
  const XNEEDCALLABLE: int := 39
  const XWRONGTYPE: int := 41
  const XLOWINDEX: int := 44
  const XHIGHINDEX: int := 45
  const XWRONGINDEX: int := 46

  /** Operands are named as in e_vm.h. A function operand stands for the constant that the
      instruction names by its index. */
  datatype Instr =
    | Ldi(a: nat, i: int)
    | Move(a: nat, b: nat)
    | Push(a: nat)
    | Init(a: nat, b: nat)
    | Assign(a: nat, b: nat)
    | Clean(a: nat)
    | GetUval(a: nat, b: nat, c: nat)
    | SetUval(a: nat, b: nat, c: nat)
    | GetVar(a: nat, b: nat)
    | SetVar(a: nat, b: nat)
    | GetArgI(a: nat, b: nat)
    | SetArgI(a: nat, b: nat)
    | IndGet(a: nat, b: nat, c: nat)
    | IndSet(a: nat, b: nat, c: nat)
    | New(a: nat)
    | Call(a: nat)
    | CallR(a: nat, b: nat)
    | CCall(a: nat, f: Function)
    | CCallR(a: nat, b: nat, f: Function)
    | Return
    | ReturnR(a: nat)
    | Try(handler: Function, f: Function)
    | Untry(f: Function)
    | Throw(a: nat)
    | Retry
    | RetX
    | RetXR(a: nat)

  const TRY_SIZE: nat := 5

  /** Bytes taken by an instruction and its operands. */
  function Size(i: Instr): nat {
    match i
    case Return | Retry | RetX => 1
    case Push(_) | Clean(_) | Call(_) | ReturnR(_) | Throw(_) | RetXR(_) => 2
    case Move(_, _) | Init(_, _) | Assign(_, _) | GetArgI(_, _) | SetArgI(_, _) => 3
    case New(_) | CallR(_, _) | Untry(_) => 3
    case Ldi(_, _) | GetUval(_, _, _) | SetUval(_, _, _) | GetVar(_, _) | SetVar(_, _) => 4
    case IndGet(_, _, _) | IndSet(_, _, _) | CCall(_, _) => 4
    case CCallR(_, _, _) => 5
    case Try(_, _) => TRY_SIZE
  }

  /** Either the VM goes on with the next instruction, or it returns `code` to native code. */
  datatype Outcome = Continue(m: Machine) | Exit(code: int, m: Machine)

  /** No EEL code to go on with: the top level, or a native function. */
  predicate InNative(k: Stack) {
    k.base == 0 || !k.HasFrame() || k.Cf().f.native
  }

  // ---------------------------------------------------------------------------------------
  // Exceptions
  // ---------------------------------------------------------------------------------------

  /** `unwind`: leave calls, cleaning up after each, until the registers are at `target`. */
  function Unwind(m: Machine, target: nat): Machine
    decreases m.k.base
  {
    if m.k.base == target || m.k.base == 0 || !m.k.HasFrame() then m
    else
      var m' := Leave(CleanCall(m));
      if m'.k.base < m.k.base then Unwind(m', target) else m'
  }

  /** What `unwind` cleans up before it leaves a call. */
  function CleanCall(m: Machine): Machine {
    ClearArgs(if InNative(m.k) then m else CleanLimbo(CleanVars(m, 0)))
  }

  /** The innermost frame that is neither a try block nor a catcher. */
  function FunctionFrame(k: Stack): Stack
    decreases k.base
  {
    if k.base > 0 && k.HasFrame() && k.Cf().mark.InBlock() then FunctionFrame(k.Below())
    else k
  }

  datatype Search = Found(k: Stack) | Boundary(k: Stack)

  /** The scheduler's search for a frame with a catcher. Native code, an UNTRY block and the
      top level stop it. */
  function FindHandler(k: Stack, x: int): (r: Search)
    ensures r.Found? ==> r.k.base > 0 && r.k.HasFrame() && r.k.Cf().mark.catcher.Some?
    decreases k.base
  {
    if k.base == 0 || !k.HasFrame() || k.Cf().f.native || k.Cf().mark.untry then Boundary(k)
    else if k.Cf().mark.catcher.Some? && x != XINTERNAL then Found(k)
    else FindHandler(k.Below(), x)
  }

  /** XRETURN: leave the innermost function, whatever blocks it is in. */
  function ReturnX(m: Machine): Outcome {
    if !m.k.HasFrame() then Exit(XEND, m)
    else
      var result := m.k.Cf().result;
      var fk := FunctionFrame(m.k);
      if !fk.HasFrame() then Exit(XEND, m)
      else Deliver(ClearArgs(Unwind(m, fk.Cf().rBase)), result)
  }

  /** Hands the result that is waiting in cell `result` to the call that is now running. If
      that is native code, it now owns the value. */
  function Deliver(m: Machine, result: int): Outcome {
    var v := if result >= 0 then RegValue(m.k.heap, result) else Nil;
    if InNative(m.k) then Exit(XEND, if result >= 0 then m.(host := m.host + [v]) else m)
    else Continue(if result >= 0 then Receive(m, v) else m)
  }

  /** Starts a catcher: the exception moves to register 0, which becomes a variable. */
  function CallCatcher(m: Machine, handler: Function): Machine {
    var result := if m.k.HasFrame() then m.k.Cf().result else -1;
    var m1 := Enter(m, handler, result, 0, PLAIN.(isCatcher := true));
    AddVar(WriteCell(m1, m1.k.base, m.exception).(exception := Nil), 0)
  }

  function HandleX(m: Machine, x: int): Outcome {
    match FindHandler(m.k, x)
    case Found(h) => Continue(CallCatcher(Unwind(m, h.Cf().rBase), h.Cf().mark.catcher.value))
    case Boundary(b) => Exit(x, Unwind(m, b.base))
  }

  function ExceptionCode(v: Value): int {
    match v
    case Nil => XYIELD
    case Integer(i) => i
    case _ => XOTHER
  }

  /** `eel__scheduler`. There is nothing to go on with at the frame of a native function. */
  function Reschedule(m: Machine): Outcome {
    var x := ExceptionCode(m.exception);
    if x == XOK || x == XYIELD then if InNative(m.k) then Exit(XEND, m) else Continue(m)
    else if x == XEND then Exit(XEND, m)
    else if x == XRETURN then ReturnX(m)
    else HandleX(m, x)
  }

  function SetException(m: Machine, v: Value): Machine {
    GiveUp(m, [m.exception]).(exception := v)
  }

  /** `eel__throw` and the scheduler. */
  function ThrowCode(m: Machine, x: int): Outcome {
    Reschedule(SetException(m, Integer(x)))
  }

  // ---------------------------------------------------------------------------------------
  // Calls
  // ---------------------------------------------------------------------------------------

  /** `check_args`: 0 if `argc` arguments are acceptable to `f`. */
  function CheckArgs(f: Function, argc: nat): int {
    if argc < f.reqargs then XFEWARGS
    else if f.tupargs > 0 then
      if argc >= f.reqargs + f.optargs && (argc - f.reqargs - f.optargs) % f.tupargs != 0
      then XTUPLEARGS else XOK
    else if argc > f.reqargs + f.optargs then XMANYARGS
    else XOK
  }

  /** What `check_args` says about the arguments pushed so far. */
  function PassedCode(m: Machine, f: Function): int {
    if m.k.sbase <= m.k.sp then CheckArgs(f, m.k.sp - m.k.sbase) else XOK
  }

  /** `call_f`. */
  function CallFunction(m: Machine, f: Function, result: int, levels: nat): Outcome {
    if result >= 0 && !f.results then ThrowCode(m, XNORESULT)
    else Continue(Enter(m, f, result, if f.native then 0 else levels, PLAIN))
  }

  /** CALL and CALLR, where the function comes from a register. */
  function CallValue(m: Machine, callee: Value, result: int): Outcome {
    match callee
    case Callable(f) =>
      if PassedCode(m, f) != XOK then ThrowCode(m, PassedCode(m, f)) else CallFunction(m, f, result, 0)
    case Ref(_) => ThrowCode(m, XNEEDCALLABLE)
    case _ => ThrowCode(m, XNEEDOBJECT)
  }

  /** What RETURN and RETURNR do once a result has been copied. */
  function ReturnWith(m: Machine, result: int): Outcome {
    Deliver(ClearArgs(Leave(CleanLimbo(CleanVars(m, 0)))), result)
  }

  /** Copies a result to where the caller wants it, if it does. */
  function CopyResult(m: Machine, v: Value): Machine {
    if m.k.HasFrame() && m.k.Cf().result >= 0 then WriteCell(TakeRef(m, v), m.k.Cf().result, v) else m
  }

  /** TRY and UNTRY: the block returns through the function that it is part of. */
  function EnterBlock(m: Machine, f: Function, handler: Option<Function>, untry: bool): Machine {
    Enter(m, f, if m.k.HasFrame() then m.k.Cf().result else -1, 0, Mark(true, false, untry, handler))
  }

  // ---------------------------------------------------------------------------------------
  // Values
  // ---------------------------------------------------------------------------------------

  /** Disown what a cell holds, then copy a value there. */
  function AssignCell(m: Machine, j: nat, v: Value): Machine {
    WriteCell(TakeRef(GiveUp(m, [RegValue(m.k.heap, j)]), v), j, v)
  }

  function WriteReg(m: Machine, a: nat, v: Value): Machine {
    WriteCell(m, m.k.base + a, v)
  }

  /** What an index is for an array. */
  function IndexOf(v: Value): Option<int> {
    match v
    case Integer(i) => Some(i)
    case Real(x) => Some(x.Floor)
    case Scalar(_, i) => Some(i)
    case _ => None
  }

  /** The arguments pushed so far, in the order they were pushed. */
  function Arguments(k: Stack): seq<Value> {
    if k.sbase <= k.sp <= |k.heap| then
      seq(k.sp - k.sbase, i requires 0 <= i < k.sp - k.sbase => CellValue(k.heap[k.sbase + i]))
    else []
  }

  /** INDGET of an array: the item is copied, and then received. Functions have items with names only. */
  function GetItem(m: Machine, a: nat, index: Value, container: Value): Outcome {
    if container.Callable? then ThrowCode(m, XWRONGINDEX)
    else if !container.Ref? || container.o >= |m.st| then ThrowCode(m, XCANTINDEX)
    else
      var items := m.st[container.o].items;
      match IndexOf(index)
      case None => ThrowCode(m, XWRONGTYPE)
      case Some(i) =>
        if i < 0 then ThrowCode(m, XLOWINDEX)
        else if i >= |items| then ThrowCode(m, XHIGHINDEX)
        else Continue(Receive(WriteReg(TakeRef(m, items[i]), a, items[i]), items[i]))
  }

  /** INDSET of an array: items past the end spring into existence as nil. */
  function SetItem(m: Machine, v: Value, index: Value, container: Value): Outcome {
    if container.Callable? then ThrowCode(m, XNOMETAMETHOD)
    else if !container.Ref? || container.o >= |m.st| then ThrowCode(m, XCANTINDEX)
    else
      match IndexOf(index)
      case None => ThrowCode(m, XWRONGTYPE)
      case Some(i) =>
        if i < 0 then ThrowCode(m, XLOWINDEX)
        else Continue(StoreItem(m, container.o, i, v))
  }

  function StoreItem(m: Machine, c: Obj, i: nat, v: Value): Machine
    requires c < |m.st|
  {
    var items := m.st[c].items;
    var m1 := if i < |items| then GiveUp(m, [items[i]]) else m;
    var m2 := TakeRef(m1, v);
    m2.(st := m2.st[c := m2.st[c].(items := Stored(items, i, v))])
  }

  function Stored(items: seq<Value>, i: nat, v: Value): seq<Value> {
    if i < |items| then items[i := v] else items + seq(i - |items|, _ => Nil) + [v]
  }

  // ---------------------------------------------------------------------------------------
  // Dispatch
  // ---------------------------------------------------------------------------------------

  /** One instruction of the running EEL function. */
  function Exec(m: Machine, i: Instr): Outcome {
    Perform(Advance(m, Size(i)), i)
  }

  function Advance(m: Machine, n: nat): Machine {
    m.(k := m.k.(pc := m.k.pc + n))
  }

  /** What an instruction does once the program counter is past it. */
  function Perform(m: Machine, i: Instr): Outcome {
    if !m.k.HasFrame() then Continue(m)
    else if IsControl(i) then PerformControl(m, i)
    else PerformValue(m, i)
  }

  /** Instructions that enter or leave calls. */
  predicate IsControl(i: Instr) {
    i.Call? || i.CallR? || i.CCall? || i.CCallR? || i.Return? || i.ReturnR? || i.Try? || i.Untry?
    || i.Throw? || i.Retry? || i.RetX? || i.RetXR?
  }

  /** Instructions that move values around. */
  function PerformValue(m: Machine, i: Instr): Outcome
    requires m.k.HasFrame() && !IsControl(i)
  {
    match i
    case Ldi(a, n) => Continue(WriteReg(m, a, Integer(n)))
    case Move(a, b) => Continue(WriteReg(m, a, m.Reg(b)))
    case Push(a) => Continue(PushValue(TakeRef(m, m.Reg(a)), m.Reg(a)))
    case Init(a, b) => Continue(AddVar(WriteReg(TakeRef(m, m.Reg(b)), a, m.Reg(b)), a))
    case Assign(a, b) => Continue(AssignCell(m, m.k.base + a, m.Reg(b)))
    case Clean(a) => Continue(CleanVars(m, a))
    case GetUval(a, b, c) =>
      var v := RegValue(m.k.heap, UvBase(m.k.heap, m.k.base, c) + b);
      Continue(Grab(WriteReg(m, a, v), v))
    case SetUval(a, b, c) =>
      Continue(AssignCell(m, UvBase(m.k.heap, m.k.base, c) + b, m.Reg(a)))
    case GetVar(a, b) =>
      if b < |m.statics| then Continue(Grab(WriteReg(m, a, m.statics[b]), m.statics[b])) else Continue(m)
    case SetVar(a, b) =>
      if b < |m.statics| then
        var m1 := TakeRef(GiveUp(m, [m.statics[b]]), m.Reg(a));
        Continue(m1.(statics := m1.statics[b := m.Reg(a)]))
      else Continue(m)
    case GetArgI(a, b) =>
      if b < m.Cf().argc then
        var v := RegValue(m.k.heap, m.Cf().argv + b);
        Continue(Grab(WriteReg(m, a, v), v))
      else
        var arg := DefaultOf(m.Cf().f, b);
        if arg.Some? then Continue(WriteReg(m, a, Integer(arg.value))) else ThrowCode(m, XHIGHINDEX)
    case SetArgI(a, b) =>
      if b < m.Cf().argc then Continue(AssignCell(m, m.Cf().argv + b, m.Reg(a)))
      else ThrowCode(m, XHIGHINDEX)
    case IndGet(a, b, c) => GetItem(m, a, m.Reg(b), m.Reg(c))
    case IndSet(a, b, c) => SetItem(m, m.Reg(a), m.Reg(b), m.Reg(c))
    case New(a) =>
      var o := |m.st|;
      var m1 := WriteReg(m.(st := Construct(m.st, Arguments(m.k))), a, Ref(o));
      Continue(ClearArgs(Receive(m1, Ref(o))))
  }

  function PerformControl(m: Machine, i: Instr): Outcome
    requires m.k.HasFrame() && IsControl(i)
  {
    match i
    case Call(a) => CallValue(m, m.Reg(a), -1)
    case CallR(a, b) => CallValue(m, m.Reg(a), m.k.base + b)
    case CCall(levels, f) => CallFunction(m, f, -1, levels)
    case CCallR(levels, b, f) => CallFunction(m, f, m.k.base + b, levels)
    case Return => ReturnWith(m, -1)
    case ReturnR(a) => ReturnWith(CopyResult(m, m.Reg(a)), m.Cf().result)
    case Try(handler, f) => Continue(EnterBlock(m, f, Some(handler), false))
    case Untry(f) => Continue(EnterBlock(m, f, None, true))
    case Throw(a) =>
      Reschedule(TakeRef(GiveUp(m, [m.exception]), m.Reg(a)).(exception := m.Reg(a)))
    case Retry =>
      var m1 := Leave(CleanLimbo(CleanVars(m, 0)));
      Continue(m1.(k := m1.k.(pc := if m1.k.pc >= TRY_SIZE then m1.k.pc - TRY_SIZE else 0)))
    case RetX => ThrowCode(m, XRETURN)
    case RetXR(a) => ThrowCode(CopyResult(m, m.Reg(a)), XRETURN)
  }
}
