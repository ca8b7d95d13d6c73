/** What limbo lists are for: an object that only a temporary refers to stays alive as long as the
    call that it was fetched in. */
module LimboTheorems {
  import opened Values
  import opened ObjectStore
  import opened CallStack
  import opened Frames
  import opened MachineState
  import opened CallLinks
  import opened Instructions
  import opened NativeCode
  import opened LeavingCalls
  import opened Unwinding
  import opened Safety
  import opened ExceptionFlow
  import opened Steps
  import opened NativeSteps
  import opened Runs
  import opened CallTheorems
  import opened ExceptionTheorems

  // ---------------------------------------------------------------------------------------
  // Limbo lists that only get longer
  // ---------------------------------------------------------------------------------------

  predicate KeepsLimbo(a: CallFrame, b: CallFrame) {
    forall o :: o in a.limbo ==> o in b.limbo
  }

  /** The call frames below cell `t` are where they were, and no object has left their lists. */
  predicate GrowsTo(h: seq<Cell>, h': seq<Cell>, t: nat) {
    forall x :: 0 <= x < t && x < |h| && h[x].Frame? ==>
      x < |h'| && h'[x].Frame? && KeepsLimbo(h[x].cf, h'[x].cf)
  }

  lemma GrowsOn(a: seq<Cell>, b: seq<Cell>, c: seq<Cell>, t: nat)
    requires GrowsTo(a, b, t) && GrowsTo(b, c, t)
    ensures GrowsTo(a, c, t)
  {
  }

  lemma GrowsSame(h: seq<Cell>, h': seq<Cell>, t: nat)
    requires t <= |h'| && forall x :: 0 <= x < t && x < |h| ==> h'[x] == h[x]
    ensures GrowsTo(h, h', t)
  {
  }

  lemma GrowsSelf(h: seq<Cell>, t: nat)
    ensures GrowsTo(h, h, t)
  {
  }

  lemma GrowsWrite(h: seq<Cell>, j: nat, c: Cell, t: nat)
    requires j < |h| && !h[j].Frame?
    ensures GrowsTo(h, h[j := c], t)
  {
  }

  lemma GrowsPush(k: Stack, o: Obj, t: nat)
    requires k.HasFrame()
    ensures GrowsTo(k.heap, SetLimbo(k, [o] + k.Cf().limbo).heap, t)
  {
  }

  /** Receiving and grabbing. */
  lemma GrowsReceive(m: Machine, v: Value, t: nat)
    ensures GrowsTo(m.k.heap, Receive(m, v).k.heap, t) && GrowsTo(m.k.heap, Grab(m, v).k.heap, t)
  {
    hide GrowsTo, SetLimbo;
    GrowsSelf(m.k.heap, t);
    if v.Ref? && m.k.HasFrame() { GrowsPush(m.k, v.o, t); }
  }

  /** The calls of `m` that are still active in `m'` are below cell `t`. */
  ghost predicate OldBelow(m: Machine, m': Machine, t: nat) {
    forall i :: 0 <= i < |Calls(m'.k)| && Calls(m'.k)[i].cf.serial < m.next ==> Calls(m'.k)[i].base <= t
  }

  lemma OldCalls(m: Machine, m': Machine)
    requires Inv(m) && Evolves(m, m')
    ensures OldBelow(m, m', m.k.base)
  {
    hide ChainOk, Accounted, LimboOk, CallsOk, Calls, LinkChain;
    forall i | 0 <= i < |Calls(m'.k)| && Calls(m'.k)[i].cf.serial < m.next ensures Calls(m'.k)[i].base <= m.k.base {
      assert IsSuffix(Calls(m'.k)[i..], Calls(m.k));
      var j := |Calls(m.k)| - |Calls(m'.k)[i..]|;
      assert Calls(m'.k)[i] == Calls(m'.k)[i..][0] == Calls(m.k)[j..][0] == Calls(m.k)[j];
      ChainLayout(m.k);
      CallsInHeap(m.k, j);
    }
  }

  lemma ChainLayout(k: Stack)
    requires ChainOk(k)
    ensures LayoutChain(k)
  {
  }

  /** If the calls of `m'` are those that are left of the calls of `m`, then they are below it. */
  lemma CallsBelow(m: Machine, m': Machine, t: nat)
    requires ChainOk(m'.k) && m'.k.base <= t
    ensures OldBelow(m, m', t)
  {
    hide ChainOk, Calls, LayoutChain;
    ChainLayout(m'.k);
    forall i | 0 <= i < |Calls(m'.k)| ensures Calls(m'.k)[i].base <= t { CallsInHeap(m'.k, i); }
  }

  // ---------------------------------------------------------------------------------------
  // Exceptions and returns
  // ---------------------------------------------------------------------------------------

  lemma SameBelowGrows(k: Stack, a: Stack, n: nat)
    requires ChainOk(k) && n <= |Calls(k)| && SameBelow(a, Caller(k, n))
    ensures GrowsTo(k.heap, a.heap, Caller(k, n).base) && a.base == Caller(k, n).base
  {
    hide ChainOk, Calls, GrowsTo, Caller;
    CallerCalls(k, n);
    BaseBelowSp(Caller(k, n));
    GrowsSame(k.heap, a.heap, Caller(k, n).base);
  }

  lemma BaseBelowSp(k: Stack)
    requires ChainOk(k)
    ensures k.base <= k.sp <= |k.heap|
  {
  }

  lemma HandleXGrows(m: Machine, x: int) returns (t: nat)
    requires Inv(m) && !InNative(m.k)
    ensures GrowsTo(m.k.heap, HandleX(m, x).m.k.heap, t) && OldBelow(m, HandleX(m, x).m, t)
  {
    hide ChainOk, Accounted, LimboOk, CallsOk, Calls, OwnedValues, LimboObjects, Caller, GrowsTo, HandleX;
    var n := ExceptionGoes(m, x);
    var m' := HandleX(m, x).m;
    if n < |Calls(m.k)| && !Stops(Calls(m.k)[n].cf) {
      t := Caller(m.k, n + 1).base;
      SameBelowGrows(m.k, m'.k.Below(), n + 1);
      CallerCalls(m.k, n + 1);
      TopIsNew(m, m', n + 1, t);
    } else {
      t := Caller(m.k, n).base;
      SameBelowGrows(m.k, m'.k, n);
      CallsBelow(m, m', t);
    }
  }

  lemma TopIsNew(m: Machine, m': Machine, n: nat, t: nat)
    requires Inv(m) && n <= |Calls(m.k)| && m'.k.HasFrame() && m'.k.Cf().serial == m.next
    requires Calls(m'.k) == [ActiveCall(m'.k.base, m'.k.Cf())] + Calls(m.k)[n..] && t == Caller(m.k, n).base
    ensures OldBelow(m, m', t)
  {
    hide ChainOk, Accounted, LimboOk, CallsOk, Calls, LayoutChain, Caller;
    CallerCalls(m.k, n);
    ChainLayout(Caller(m.k, n));
    forall i | 0 < i < |Calls(m'.k)| ensures Calls(m'.k)[i].base <= t {
      CallsInHeap(Caller(m.k, n), i - 1);
    }
  }

  lemma ReturnXGrows(m: Machine) returns (t: nat)
    requires !InNative(m.k) && InvWith(m, Waiting(m.k, m.k.Cf().result))
    ensures GrowsTo(m.k.heap, ReturnX(m).m.k.heap, t) && OldBelow(m, ReturnX(m).m, t)
  {
    hide ChainOk, Accounted, LimboOk, CallsOk, Calls, OwnedValues, LimboObjects, Caller, GrowsTo, ReturnX, ClearArgs,
      Unwind, Deliver;
    var waiting, result := Waiting(m.k, m.k.Cf().result), m.k.Cf().result;
    var n := FunctionFrameFound(m.k);
    TopCall(m.k);
    var m1 := ReturnXUnwound(m, waiting, n);
    UnwindOk(m, waiting, n + 1);
    var m0 := Unwind(m, Caller(m.k, n + 1).base);
    t := Caller(m.k, n + 1).base;
    SameBelowGrows(m.k, m0.k, n + 1);
    OnlyArgsCleared(m0);
    DeliverGrows(m1, result, t);
    GrowsOn(m.k.heap, m1.k.heap, ReturnX(m).m.k.heap, t);
    DeliverOk(m1, result);
    DeliverRegisters(m1, result);
    CallsBelow(m, ReturnX(m).m, t);
  }

  lemma DeliverGrows(m: Machine, result: int, t: nat)
    ensures GrowsTo(m.k.heap, Deliver(m, result).m.k.heap, t)
  {
    hide GrowsTo, Receive;
    GrowsSelf(m.k.heap, t);
    if result >= 0 { GrowsReceive(m, RegValue(m.k.heap, result), t); }
  }

  lemma RescheduleGrows(m: Machine) returns (t: nat)
    requires !InNative(m.k)
    requires InvWith(m, if m.exception == Integer(XRETURN) then Waiting(m.k, m.k.Cf().result) else [])
    ensures GrowsTo(m.k.heap, Reschedule(m).m.k.heap, t) && OldBelow(m, Reschedule(m).m, t)
  {
    hide ChainOk, Accounted, LimboOk, CallsOk, Calls, OwnedValues, LimboObjects, GrowsTo, ReturnX, HandleX;
    var x := ExceptionCode(m.exception);
    if x == XRETURN {
      t := ReturnXGrows(m);
    } else if x in {XOK, XYIELD, XEND} {
      t := m.k.base;
      GrowsSelf(m.k.heap, t);
      CallsBelow(m, m, t);
    } else {
      t := HandleXGrows(m, x);
    }
  }

  lemma ThrowGrows(m: Machine, x: int) returns (t: nat)
    requires !InNative(m.k)
    requires InvWith(m, if x == XRETURN then Waiting(m.k, m.k.Cf().result) else [])
    ensures GrowsTo(m.k.heap, ThrowCode(m, x).m.k.heap, t) && OldBelow(m, ThrowCode(m, x).m, t)
  {
    hide ChainOk, Accounted, LimboOk, CallsOk, Calls, OwnedValues, LimboObjects, GrowsTo, Reschedule, SetException;
    var hand := if x == XRETURN then Waiting(m.k, m.k.Cf().result) else [];
    PlainHand(m, hand, Integer(x));
    SetExceptionKeeps(m, hand, Integer(x));
    SetExceptionValue(m, Integer(x));
    t := RescheduleGrows(SetException(m, Integer(x)));
  }

  lemma ReturnGrows(m: Machine, result: int) returns (t: nat)
    requires !InNative(m.k) && m.k.sp == m.k.sbase && (result == -1 || result == m.k.Cf().result)
    requires InvWith(m, Waiting(m.k, result))
    ensures GrowsTo(m.k.heap, ReturnWith(m, result).m.k.heap, t) && OldBelow(m, ReturnWith(m, result).m, t)
  {
    hide ChainOk, Accounted, LimboOk, CallsOk, Calls, OwnedValues, LimboObjects, GrowsTo, Deliver, ClearArgs, Leave,
         CleanLimbo, CleanVars;
    var m1 := ReturnLeft(m, result);
    t := m1.k.base;
    LeftGrows(m, Waiting(m.k, result));
    OnlyArgsCleared(Leave(CleanLimbo(CleanVars(m, 0))));
    DeliverGrows(m1, result, t);
    GrowsOn(m.k.heap, m1.k.heap, ReturnWith(m, result).m.k.heap, t);
    DeliverOk(m1, result);
    DeliverRegisters(m1, result);
    CallsBelow(m, ReturnWith(m, result).m, t);
  }

  /** Leaving a call touches no frame below it. */
  lemma LeftGrows(m: Machine, hand: seq<Value>)
    requires InvWith(m, hand) && !InNative(m.k)
    ensures var m1 := Leave(CleanLimbo(CleanVars(m, 0)));
      GrowsTo(m.k.heap, m1.k.heap, m.k.Cf().rBase) && m1.k.base == m.k.Cf().rBase
  {
    hide ChainOk, Accounted, LimboOk, CallsOk, Calls, OwnedValues, LimboObjects, GrowsTo, CleanLimbo, CleanVars;
    CleanFrameOk(m, hand);
    CallerOrder(m.k);
    GrowsSame(m.k.heap, CleanLimbo(CleanVars(m, 0)).k.heap, m.k.Cf().rBase);
  }

  // ---------------------------------------------------------------------------------------
  // Instructions
  // ---------------------------------------------------------------------------------------

  lemma RegGrows(m: Machine, a: nat, v: Value, t: nat)
    requires ChainOk(m.k) && m.k.base > 0 && m.k.HasFrame() && a < FrameSize(m.k.Cf().f)
    ensures GrowsTo(m.k.heap, WriteReg(m, a, v).k.heap, t)
  {
    hide ChainOk, GrowsTo;
    RegisterCell(m, a);
    GrowsWrite(m.k.heap, m.k.base + a, Val(v), t);
  }

  lemma SlotGrows(m: Machine, j: nat, v: Value, t: nat)
    requires ChainOk(m.k) && Owns(m.k, j)
    ensures GrowsTo(m.k.heap, AssignCell(m, j, v).k.heap, t)
  {
    hide LayoutChain, LinkChain, GrowsTo, Own, Release;
    OwnsBound(m.k, j);
    ValuesAbove(m.k);
    GrowsWrite(m.k.heap, j, Val(v), t);
  }

  lemma PushGrows(m: Machine, v: Value)
    requires ChainOk(m.k)
    ensures GrowsTo(m.k.heap, PushValue(m, v).k.heap, m.k.base)
  {
    hide ChainOk, GrowsTo, Grow;
    BaseBelowSp(m.k);
    ValuesAbove(m.k);
    var grown := Grow(m.k.heap, m.k.sp + 1);
    forall x | 0 <= x < m.k.base ensures grown[x] == m.k.heap[x] { assert grown[..|m.k.heap|][x] == m.k.heap[x]; }
    GrowsSame(m.k.heap, PushValue(m, v).k.heap, m.k.base);
  }

  lemma ArgGrows(m: Machine, i: Instr) returns (t: nat)
    requires Inv(m) && !InNative(m.k) && (i.GetArgI? || i.SetArgI?) && WellCoded(m, i)
    ensures GrowsTo(m.k.heap, PerformValue(m, i).m.k.heap, t) && OldBelow(m, PerformValue(m, i).m, t)
  {
    hide ChainOk, Accounted, LimboOk, CallsOk, Calls, OwnedValues, LimboObjects, Owns, GrowsTo, ThrowCode, Grab,
      WriteReg,
         AssignCell, KeepsOwner, OldBelow, Evolves;
    PerformArgOk(m, i);
    t := m.k.base;
    OldCalls(m, PerformValue(m, i).m);
    match i
    case GetArgI(a, b) =>
      if b < m.Cf().argc {
        var v := RegValue(m.k.heap, m.Cf().argv + b);
        RegGrows(m, a, v, t);
        GrowsReceive(WriteReg(m, a, v), v, t);
        GrowsOn(m.k.heap, WriteReg(m, a, v).k.heap, PerformValue(m, i).m.k.heap, t);
      } else if DefaultOf(m.Cf().f, b).Some? {
        RegGrows(m, a, Integer(DefaultOf(m.Cf().f, b).value), t);
      } else {
        t := ThrowGrows(m, XHIGHINDEX);
      }
    case SetArgI(a, b) =>
      if b < m.Cf().argc {
        ArgIsOwned(m, b);
        SlotGrows(m, m.Cf().argv + b, m.Reg(a), t);
      } else {
        t := ThrowGrows(m, XHIGHINDEX);
      }
  }

  lemma ItemGrows(m: Machine, i: Instr) returns (t: nat)
    requires Inv(m) && !InNative(m.k) && (i.IndGet? || i.IndSet? || i.New?) && WellCoded(m, i)
    ensures GrowsTo(m.k.heap, PerformValue(m, i).m.k.heap, t) && OldBelow(m, PerformValue(m, i).m, t)
  {
    hide ChainOk, Accounted, LimboOk, CallsOk, Calls, OwnedValues, LimboObjects, Owns, GrowsTo, ThrowCode, Receive,
      WriteReg,
         KeepsOwner, OldBelow, Evolves, Release, Own, ClearArgs, Construct, Rooted;
    PerformValueOk(m, i);
    t := m.k.base;
    OldCalls(m, PerformValue(m, i).m);
    GrowsSelf(m.k.heap, t);
    match i
    case IndGet(a, b, c) =>
      var x := IndexOf(m.Reg(b));
      if m.Reg(c).Callable? {
        t := ThrowGrows(m, XWRONGINDEX);
      } else if !m.Reg(c).Ref? || m.Reg(c).o >= |m.st| {
        t := ThrowGrows(m, XCANTINDEX);
      } else if x.None? {
        t := ThrowGrows(m, XWRONGTYPE);
      } else if x.value < 0 {
        t := ThrowGrows(m, XLOWINDEX);
      } else if x.value >= |m.st[m.Reg(c).o].items| {
        t := ThrowGrows(m, XHIGHINDEX);
      } else {
        var v := m.st[m.Reg(c).o].items[x.value];
        RegReceives(TakeRef(m, v), a, v, t);
      }
    case IndSet(a, b, c) =>
      var x := IndexOf(m.Reg(b));
      if m.Reg(c).Callable? {
        t := ThrowGrows(m, XNOMETAMETHOD);
      } else if !m.Reg(c).Ref? || m.Reg(c).o >= |m.st| {
        t := ThrowGrows(m, XCANTINDEX);
      } else if x.None? {
        t := ThrowGrows(m, XWRONGTYPE);
      } else if x.value < 0 {
        t := ThrowGrows(m, XLOWINDEX);
      }
    case New(a) =>
      var v := Ref(|m.st|);
      var m1 := m.(st := Construct(m.st, Arguments(m.k)));
      RegReceives(m1, a, v, t);
      OnlyArgsCleared(Receive(WriteReg(m1, a, v), v));
  }

  lemma RegReceives(m: Machine, a: nat, v: Value, t: nat)
    requires ChainOk(m.k) && m.k.base > 0 && m.k.HasFrame() && a < FrameSize(m.k.Cf().f)
    ensures GrowsTo(m.k.heap, Receive(WriteReg(m, a, v), v).k.heap, t)
    ensures GrowsTo(m.k.heap, Grab(WriteReg(m, a, v), v).k.heap, t)
  {
    hide ChainOk, GrowsTo, Receive, Grab, WriteReg;
    RegGrows(m, a, v, t);
    GrowsReceive(WriteReg(m, a, v), v, t);
    GrowsOn(m.k.heap, WriteReg(m, a, v).k.heap, Receive(WriteReg(m, a, v), v).k.heap, t);
    GrowsOn(m.k.heap, WriteReg(m, a, v).k.heap, Grab(WriteReg(m, a, v), v).k.heap, t);
  }

  lemma ValueGrows(m: Machine, i: Instr) returns (t: nat)
    requires Inv(m) && !InNative(m.k) && !IsControl(i) && WellCoded(m, i)
    ensures GrowsTo(m.k.heap, PerformValue(m, i).m.k.heap, t) && OldBelow(m, PerformValue(m, i).m, t)
  {
    hide ChainOk, Accounted, LimboOk, CallsOk, Calls, OwnedValues, LimboObjects, Owns, UvBase, GrowsTo, Grab,
      WriteReg, AssignCell,
         KeepsOwner, OldBelow, Evolves, Release, Own, Rooted, PushValue, AddVar, CleanVars, GetItem, SetItem,
           ThrowCode, Receive,
         ClearArgs, Construct;
    PerformValueOk(m, i);
    t := m.k.base;
    OldCalls(m, PerformValue(m, i).m);
    GrowsSelf(m.k.heap, t);
    match i
    case Ldi(a, n) => RegGrows(m, a, Integer(n), t);
    case Move(a, b) => RegGrows(m, a, m.Reg(b), t);
    case Push(a) => PushGrows(TakeRef(m, m.Reg(a)), m.Reg(a));
    case Init(a, b) =>
      var m1 := TakeRef(m, m.Reg(b));
      RegGrows(m1, a, m.Reg(b), t);
      AddGrows(WriteReg(m1, a, m.Reg(b)), a, t);
      GrowsOn(m.k.heap, WriteReg(m1, a, m.Reg(b)).k.heap, PerformValue(m, i).m.k.heap, t);
    case Assign(a, b) => VarIsOwned(m, a); SlotGrows(m, m.k.base + a, m.Reg(b), t);
    case Clean(a) => CleanGrows(m, a, t);
    case GetUval(a, b, c) => RegReceives(m, a, RegValue(m.k.heap, UvBase(m.k.heap, m.k.base, c) + b), t);
    case SetUval(a, b, c) => SlotGrows(m, UvBase(m.k.heap, m.k.base, c) + b, m.Reg(a), t);
    case GetVar(a, b) => RegReceives(m, a, m.statics[b], t);
    case SetVar(a, b) =>
    case GetArgI(_, _) => t := ArgGrows(m, i);
    case SetArgI(_, _) => t := ArgGrows(m, i);
    case IndGet(_, _, _) => t := ItemGrows(m, i);
    case IndSet(_, _, _) => t := ItemGrows(m, i);
    case New(_) => t := ItemGrows(m, i);
  }

  lemma AddGrows(m: Machine, a: nat, t: nat)
    ensures GrowsTo(m.k.heap, AddVar(m, a).k.heap, t)
  {
  }

  lemma CleanGrows(m: Machine, a: nat, t: nat)
    ensures GrowsTo(m.k.heap, CleanVars(m, a).k.heap, t)
  {
    hide Release;
  }

  lemma EnterGrows(m: Machine, f: Function, result: int, levels: nat, mark: Mark)
    requires Inv(m) && CanEnter(m, f, result, levels, mark)
    ensures GrowsTo(m.k.heap, Enter(m, f, result, levels, mark).k.heap, m.k.base)
  {
    hide ChainOk, Accounted, LimboOk, CallsOk, Calls, CanEnter, GrowsTo, Enter;
    EnterFrame(m, f, result, levels, mark);
    BaseBelowSp(m.k);
    GrowsSame(m.k.heap, Enter(m, f, result, levels, mark).k.heap, m.k.base);
  }

  lemma CallGrows(m: Machine, f: Function, result: int, levels: nat) returns (t: nat)
    requires Inv(m) && !InNative(m.k) && ((result >= 0 ==> f.results) ==> CalledAs(m, f, levels))
    requires result == -1 || (result >= 0 && FreeSlot(m.k, result))
    ensures GrowsTo(m.k.heap, CallFunction(m, f, result, levels).m.k.heap, t)
    ensures OldBelow(m, CallFunction(m, f, result, levels).m, t)
  {
    hide ChainOk, Accounted, LimboOk, CallsOk, Calls, OwnedValues, LimboObjects, Enter, ThrowCode, FreeSlot, GrowsTo,
      OldBelow,
         Evolves, CanEnter, CalledAs;
    if result >= 0 && !f.results {
      t := ThrowGrows(m, XNORESULT);
    } else {
      CallFunctionOk(m, f, result, levels);
      FunctionEnters(m, f, result, levels);
      t := m.k.base;
      EnterGrows(m, f, result, if f.native then 0 else levels, PLAIN);
      OldCalls(m, CallFunction(m, f, result, levels).m);
    }
  }

  lemma CallValueGrows(m: Machine, callee: Value, result: int) returns (t: nat)
    requires Inv(m) && !InNative(m.k) && ValueCallFits(m, callee, result >= 0)
    requires result == -1 || (result >= 0 && FreeSlot(m.k, result))
    ensures GrowsTo(m.k.heap, CallValue(m, callee, result).m.k.heap, t)
            && OldBelow(m, CallValue(m, callee, result).m, t)
  {
    hide ChainOk, Accounted, LimboOk, CallsOk, Calls, OwnedValues, LimboObjects, CallFunction, ThrowCode, FreeSlot,
      CalledAs,
         GrowsTo, OldBelow;
    match callee
    case Callable(f) =>
      var x := PassedCode(m, f);
      if x != XOK {
        t := ThrowGrows(m, x);
      } else {
        if result >= 0 ==> f.results { FittingCall(m, f); }
        t := CallGrows(m, f, result, 0);
      }
    case Ref(_) => t := ThrowGrows(m, XNEEDCALLABLE);
    case _ => t := ThrowGrows(m, XNEEDOBJECT);
  }

  lemma CopyGrows(m: Machine, v: Value, t: nat)
    requires Inv(m) && !InNative(m.k)
    ensures GrowsTo(m.k.heap, CopyResult(m, v).k.heap, t)
  {
    hide ChainOk, Accounted, LimboOk, CallsOk, Calls, GrowsTo, Own;
    GrowsSelf(m.k.heap, t);
    if m.k.Cf().result >= 0 {
      ResultIsFree(m);
      GrowsWrite(m.k.heap, m.k.Cf().result, Val(v), t);
    }
  }

  lemma ControlGrows(m: Machine, i: Instr) returns (t: nat)
    requires Inv(m) && !InNative(m.k) && IsControl(i) && WellCoded(m, i)
    ensures GrowsTo(m.k.heap, PerformControl(m, i).m.k.heap, t) && OldBelow(m, PerformControl(m, i).m, t)
  {
    hide ChainOk, Accounted, LimboOk, CallsOk, Calls, OwnedValues, LimboObjects, Owns, Count, UvBase, Roots, Temp,
      WellFormedFunction,
         HandlerFits, BlockFits, CalledAs, Rooted, KeepsOwner, FreeSlot, CallValue, CallFunction, ReturnWith,
           EnterBlock, Reschedule,
         ThrowCode, CopyResult, Leave, CleanLimbo, CleanVars, TakeRef, GiveUp, GrowsTo, OldBelow, CanEnter;
    var base := m.k.base;
    match i
    case Call(a) => t := CallValueGrows(m, m.Reg(a), -1);
    case CallR(a, b) => TempIsFree(m, b); t := CallValueGrows(m, m.Reg(a), base + b);
    case CCall(levels, f) => t := CallGrows(m, f, -1, levels);
    case CCallR(levels, b, f) => TempIsFree(m, b); t := CallGrows(m, f, base + b, levels);
    case Return => t := ReturnGrows(m, -1);
    case ReturnR(a) => t := CopiedGrows(m, m.Reg(a), true);
    case Try(handler, f) => t := BlockGrows(m, f, Some(handler), false);
    case Untry(f) => t := BlockGrows(m, f, None, true);
    case Throw(a) => t := RaisedGrows(m, m.Reg(a));
    case Retry => t := RetryGrows(m);
    case RetX => t := ThrowGrows(m, XRETURN);
    case RetXR(a) => t := CopiedGrows(m, m.Reg(a), false);
  }

  /** RETURNR and RETXR. */
  lemma CopiedGrows(m: Machine, v: Value, plain: bool) returns (t: nat)
    requires Inv(m) && !InNative(m.k) && Rooted(m, v) && (plain ==> m.k.sp == m.k.sbase)
    ensures var mc := CopyResult(m, v);
      var m' := if plain then ReturnWith(mc, m.k.Cf().result).m else ThrowCode(mc, XRETURN).m;
      GrowsTo(m.k.heap, m'.k.heap, t) && OldBelow(m, m', t)
  {
    hide ChainOk, Accounted, LimboOk, CallsOk, Calls, OwnedValues, LimboObjects, Rooted, CopyResult, ReturnWith,
      ThrowCode, GrowsTo;
    CopyResultOk(m, v);
    TopResult(m.k);
    var mc := CopyResult(m, v);
    if plain { t := ReturnGrows(mc, m.k.Cf().result); } else { t := ThrowGrows(mc, XRETURN); }
    CopyGrows(m, v, t);
    GrowsOn(m.k.heap, mc.k.heap, if plain then ReturnWith(mc, m.k.Cf().result).m.k.heap
      else ThrowCode(mc, XRETURN).m.k.heap, t);
  }

  lemma BlockGrows(m: Machine, f: Function, handler: Option<Function>, untry: bool) returns (t: nat)
    requires Inv(m) && !InNative(m.k) && BlockFits(m, f)
    requires handler.Some? ==> HandlerFits(handler.value, m.k.Cf())
    ensures GrowsTo(m.k.heap, EnterBlock(m, f, handler, untry).k.heap, t)
            && OldBelow(m, EnterBlock(m, f, handler, untry), t)
  {
    hide ChainOk, Accounted, LimboOk, CallsOk, Calls, OwnedValues, LimboObjects, Enter, BlockFits, HandlerFits,
      GrowsTo, OldBelow,
         Evolves, CanEnter;
    var mark := Mark(true, false, untry, handler);
    EnterBlockOk(m, f, handler, untry);
    BlockEnters(m, f, mark);
    t := m.k.base;
    EnterGrows(m, f, m.k.Cf().result, 0, mark);
    OldCalls(m, EnterBlock(m, f, handler, untry));
  }

  lemma RaisedGrows(m: Machine, v: Value) returns (t: nat)
    requires Inv(m) && !InNative(m.k) && KeepsOwner(m, v, m.exception)
    requires v == Integer(XRETURN) ==> NothingWaiting(m.k)
    ensures var m' := Reschedule(TakeRef(GiveUp(m, [m.exception]), v).(exception := v)).m;
      GrowsTo(m.k.heap, m'.k.heap, t) && OldBelow(m, m', t)
  {
    hide ChainOk, Accounted, LimboOk, CallsOk, Calls, OwnedValues, LimboObjects, Count, Release, Own, Reschedule,
      GrowsTo;
    RaisedOk(m, v);
    var m1 := TakeRef(GiveUp(m, [m.exception]), v).(exception := v);
    if v == Integer(XRETURN) { WaitingNothing(m1); }
    t := RescheduleGrows(m1);
  }

  lemma RetryGrows(m: Machine) returns (t: nat)
    requires Inv(m) && !InNative(m.k) && m.k.sp == m.k.sbase && m.k.Cf().mark.isCatcher
    ensures var m1 := Leave(CleanLimbo(CleanVars(m, 0)));
      var m' := m1.(k := m1.k.(pc := if m1.k.pc >= TRY_SIZE then m1.k.pc - TRY_SIZE else 0));
      GrowsTo(m.k.heap, m'.k.heap, t) && OldBelow(m, m', t)
  {
    hide ChainOk, Accounted, LimboOk, CallsOk, Calls, OwnedValues, LimboObjects, CleanLimbo, CleanVars, GrowsTo, Leave;
    RetryOk(m);
    LeftGrows(m, []);
    var m1 := Leave(CleanLimbo(CleanVars(m, 0)));
    t := m1.k.base;
    AdvanceOk(m1, if m1.k.pc >= TRY_SIZE then m1.k.pc - TRY_SIZE else 0);
    CallsBelow(m, m1.(k := m1.k.(pc := if m1.k.pc >= TRY_SIZE then m1.k.pc - TRY_SIZE else 0)), t);
  }

  // ---------------------------------------------------------------------------------------
  // Native code
  // ---------------------------------------------------------------------------------------

  lemma FirstGrows(m: Machine, v: Value, t: nat)
    requires ChainOk(m.k)
    ensures t <= m.k.base ==> GrowsTo(m.k.heap, WriteReg(m, 0, v).k.heap, t)
  {
    hide ChainOk, GrowsTo, Owns;
    FirstCell(m.k);
    if m.k.base < |m.k.heap| && t <= m.k.base { GrowsSame(m.k.heap, WriteReg(m, 0, v).k.heap, t); }
    GrowsSelf(m.k.heap, t);
  }

  lemma ResetGrows(m: Machine)
    requires Inv(m)
    ensures GrowsTo(m.k.heap, ResetArgs(m).k.heap, m.k.base)
  {
    hide ChainOk, Accounted, LimboOk, CallsOk, Calls, OwnedValues, LimboObjects, GrowsTo, ClearArgs, WriteReg;
    ClearArgsOk'(m, []);
    OnlyArgsCleared(m);
    FirstGrows(ClearArgs(m), Nil, m.k.base);
  }

  lemma InvokeGrows(m: Machine, f: Function)
    requires Inv(m) && WellBehaved(m, Invoke(f))
    ensures GrowsTo(m.k.heap, InvokeFunction(m, f).m.k.heap, m.k.base)
  {
    hide ChainOk, Accounted, LimboOk, CallsOk, Calls, OwnedValues, LimboObjects, FreeSlot, Enter, SetException,
         WellFormedFunction, GrowsTo, PassedCode, ResetArgs, FirstIsFree, Evolves, NativesStay, CanEnter;
    GrowsSelf(m.k.heap, m.k.base);
    if PassedCode(m, f) != XOK {
      ResetGrows(m);
    } else if m.Reg(0) == Nil || f.results {
      InvokeEnters(m, f);
      EnterGrows(m, f, if m.Reg(0) != Nil && f.results then m.k.base else -1, 0, PLAIN);
    }
  }

  lemma LandingGrows(m: Machine, x: int, t: nat)
    ensures GrowsTo(m.k.heap, Landing(m, x).k.heap, t)
  {
    hide GrowsTo, ClearArgs;
    GrowsSelf(m.k.heap, t);
    OnlyArgsCleared(m);
    OnlyArgsCleared(BackFrom(if x != XOK then ClearArgs(m) else m));
  }

  lemma FinishErrorGrows(m: Machine, call: ActiveCall, x: int, i: nat) returns (t: nat)
    requires Inv(m) && FinishFits(m, call, x, i) && x != XOK
    ensures GrowsTo(m.k.heap, FinishNative(m, call, x, i).m.k.heap, t)
    ensures OldBelow(m, FinishNative(m, call, x, i).m, t)
  {
    hide ChainOk, Accounted, LimboOk, CallsOk, Calls, OwnedValues, LimboObjects, Landing, ThrowCode, LeavesNothing,
         GrowsTo, OldBelow;
    Lands(m, x);
    var m1 := Landing(m, x);
    if InNative(m1.k) {
      t := m1.k.base;
      LandingGrows(m, x, t);
      ThrowInNative(m1, x);
      CallsBelow(m, ThrowCode(m1, x).m, t);
    } else {
      if x == XRETURN { WaitingNothing(m1); }
      t := ThrowGrows(m1, x);
      LandingGrows(m, x, t);
      GrowsOn(m.k.heap, m1.k.heap, ThrowCode(m1, x).m.k.heap, t);
      OldSame(m, m1, ThrowCode(m1, x).m, t);
    }
  }

  lemma OldSame(m: Machine, m1: Machine, m': Machine, t: nat)
    requires OldBelow(m1, m', t) && m1.next == m.next
    ensures OldBelow(m, m', t)
  {
    hide Calls;
  }

  lemma FinishGrows(m: Machine, call: ActiveCall, i: nat) returns (t: nat)
    requires Inv(m) && FinishFits(m, call, XOK, i) && call in Calls(m.k) && call.cf.f.native
    ensures GrowsTo(m.k.heap, FinishNative(m, call, XOK, i).m.k.heap, t)
    ensures OldBelow(m, FinishNative(m, call, XOK, i).m, t)
  {
    hide ChainOk, Accounted, LimboOk, CallsOk, Calls, OwnedValues, LimboObjects, Landing, Receive, GiveUp, GrowsTo,
         OldBelow, LeavesNothing, Evolves, CallersStay;
    FinishOk(m, call, XOK, i);
    FinishRegisters(m, call, i);
    t := m.k.Cf().rBase;
    CallsBelow(m, FinishNative(m, call, XOK, i).m, t);
    LandingGrows(m, XOK, t);
    if call.cf.f.results {
      ActiveResultSlot(m.k, call);
      var m1 := WriteResult(HostLoses(m, i), call.cf.result, m.host[i]);
      GrowsWrite(m.k.heap, call.cf.result, Val(m.host[i]), t);
      LandingGrows(m1, XOK, t);
      var m2 := Landing(m1, XOK);
      var v := Received(m, call, i);
      GrowsOn(m.k.heap, m1.k.heap, m2.k.heap, t);
      GivenRegisters(m2, [v]);
      GrowsReceive(m2, v, t);
      GrowsOn(m.k.heap, m2.k.heap, Receive(m2, v).k.heap, t);
    }
  }

  lemma NativeGrows(m: Machine, op: NativeOp)
    requires Inv(m) && WellBehaved(m, op)
    ensures GrowsTo(m.k.heap, NativeExec(m, op).m.k.heap, m.k.base) && OldBelow(m, NativeExec(m, op).m, m.k.base)
  {
    hide ChainOk, Accounted, LimboOk, CallsOk, Calls, OwnedValues, LimboObjects, FreeSlot, Own, Release, Construct,
         PushArg, InvokeFunction, GrowsTo, OldBelow, Evolves, NativesStay, PushValue, ResetArgs, WriteReg, Owns;
    NativeOk(m, op);
    OldCalls(m, NativeExec(m, op).m);
    GrowsSelf(m.k.heap, m.k.base);
    match op
    case Reset => ResetGrows(m);
    case Want => FirstGrows(m, Scalar(3, 1), m.k.base);
    case Pass(v) => PushGrows(TakeRef(m, v), v);
    case Keep(_) =>
    case Drop(_) =>
    case Create =>
    case Invoke(f) => InvokeGrows(m, f);
  }

  // ---------------------------------------------------------------------------------------
  // Runs
  // ---------------------------------------------------------------------------------------

  lemma InstructionGrows(m: Machine, i: Instr) returns (t: nat)
    requires Inv(m) && CanExecute(m, i)
    ensures GrowsTo(m.k.heap, Exec(m, i).m.k.heap, t) && OldBelow(m, Exec(m, i).m, t)
  {
    hide ChainOk, Accounted, LimboOk, CallsOk, Calls, OwnedValues, LimboObjects, PerformValue, PerformControl,
         ValueCoded, ControlCoded, GrowsTo;
    var m0 := Advance(m, Size(i));
    AdvanceSame(m, Size(i));
    if IsControl(i) {
      AdvanceControl(m, Size(i), i);
      t := ControlGrows(m0, i);
    } else {
      AdvanceValue(m, Size(i), i);
      t := ValueGrows(m0, i);
    }
  }

  /** Every step keeps the limbo lists of the calls that stay active. */
  lemma StepGrows(s: Session, step: Step) returns (t: nat)
    requires Sound(s) && Allowed(s, step)
    ensures GrowsTo(s.m.k.heap, Execute(s, step).m.k.heap, t) && OldBelow(s.m, Execute(s, step).m, t)
  {
    hide Inv, NativesActive, Calls, Exec, NativeExec, FinishNative, CanExecute, WellBehaved, FinishFits, GrowsTo,
         OldBelow, StartsNative;
    match step
    case Op(i) => t := InstructionGrows(s.m, i);
    case Native(op) => t := s.m.k.base; NativeGrows(s.m, op);
    case Finish(x, i) =>
      InnermostActive(s);
      if x == XOK { t := FinishGrows(s.m, s.natives[0], i); } else { t := FinishErrorGrows(s.m, s.natives[0], x, i); }
  }

  /** The call with this number is active, with its registers at `base`. */
  ghost predicate Active(m: Machine, serial: nat, base: nat) {
    exists i :: 0 <= i < |Calls(m.k)| && Calls(m.k)[i].cf.serial == serial && Calls(m.k)[i].base == base
  }

  /** The object is on the limbo list of the call whose registers are at `base`. */
  predicate OnListOf(m: Machine, base: nat, o: Obj) {
    && base >= CFREGS && base - CFREGS < |m.k.heap| && m.k.heap[base - CFREGS].Frame?
    && o in m.k.heap[base - CFREGS].cf.limbo
  }

  lemma StepKeepsList(s: Session, step: Step, serial: nat, base: nat, o: Obj)
    requires Sound(s) && Allowed(s, step) && OnListOf(s.m, base, o)
    requires serial < s.m.next && Active(Execute(s, step).m, serial, base)
    ensures OnListOf(Execute(s, step).m, base, o)
  {
    hide Inv, NativesActive, Calls, Execute, Allowed;
    var t := StepGrows(s, step);
  }

  /** As long as a call is active, no object leaves its limbo list. */
  lemma {:induction false} ListKept(s: Session, run: seq<Step>, serial: nat, base: nat, o: Obj)
    requires Sound(s) && AllowedRun(s, run) && serial < s.m.next && OnListOf(s.m, base, o)
    requires Active(s.m, serial, base) && Active(RunAll(s, run).m, serial, base)
    ensures OnListOf(RunAll(s, run).m, base, o)
    decreases |run|
  {
    hide Sound, Allowed, Execute, OnListOf, Active, Evolves;
    if run != [] {
      var s1 := Execute(s, run[0]);
      StepKeepsInvariant(s, run[0]);
      RunEvolves(s1, run[1..]);
      ActiveBefore(s.m, s1.m, RunAll(s, run).m, serial, base);
      StepKeepsList(s, run[0], serial, base, o);
      ListKept(s1, run[1..], serial, base, o);
    }
  }

  /** A call that is active at the end of a run was active all along. */
  lemma ActiveBefore(m: Machine, m1: Machine, m2: Machine, serial: nat, base: nat)
    requires Evolves(m, m1) && Evolves(m1, m2) && serial < m.next && Active(m2, serial, base)
    ensures serial < m1.next && Active(m1, serial, base)
  {
    hide Calls;
    var i :| 0 <= i < |Calls(m2.k)| && Calls(m2.k)[i].cf.serial == serial && Calls(m2.k)[i].base == base;
    assert IsSuffix(Calls(m2.k)[i..], Calls(m1.k));
    var j := |Calls(m1.k)| - |Calls(m2.k)[i..]|;
    assert Calls(m2.k)[i] == Calls(m2.k)[i..][0] == Calls(m1.k)[j..][0] == Calls(m1.k)[j];
  }

  /** What is on the limbo list of an active call is in limbo, and alive. */
  lemma ListedAlive(m: Machine, serial: nat, base: nat, o: Obj)
    requires Inv(m) && Active(m, serial, base) && OnListOf(m, base, o)
    ensures o in m.limboed && IsLive(m.st, Ref(o))
  {
    hide ChainOk, Accounted, CallsOk, Calls, OwnedValues, LimboObjects, Count;
    var i :| 0 <= i < |Calls(m.k)| && Calls(m.k)[i].cf.serial == serial && Calls(m.k)[i].base == base;
    InLimboObjects(m.k, i, o);
    CountAsRefs(LimboObjects(m.k), o);
    LimboedLive(m, Ref(o));
  }

  lemma {:induction false} InLimboObjects(k: Stack, i: nat, o: Obj)
    requires ChainOk(k) && i < |Calls(k)|
    requires Calls(k)[i].base >= CFREGS && Calls(k)[i].base - CFREGS < |k.heap|
             && k.heap[Calls(k)[i].base - CFREGS].Frame?
    requires o in k.heap[Calls(k)[i].base - CFREGS].cf.limbo
    ensures o in LimboObjects(k)
    decreases i
  {
    hide LayoutOk, LinksOk;
    BelowOk(k);
    assert Calls(k) == [ActiveCall(k.base, k.Cf().(limbo := []))] + Calls(k.Below());
    if i > 0 { InLimboObjects(k.Below(), i - 1, o); }
  }

  /** An object that is in limbo is on the list of some active call. */
  lemma {:induction false} OnSomeList(k: Stack, o: Obj) returns (i: nat)
    requires ChainOk(k) && o in LimboObjects(k)
    ensures i < |Calls(k)| && Calls(k)[i].base >= CFREGS && Calls(k)[i].base - CFREGS < |k.heap|
    ensures k.heap[Calls(k)[i].base - CFREGS].Frame? && o in k.heap[Calls(k)[i].base - CFREGS].cf.limbo
    decreases k.base
  {
    hide LayoutOk, LinksOk;
    BelowOk(k);
    assert Calls(k) == [ActiveCall(k.base, k.Cf().(limbo := []))] + Calls(k.Below());
    if o in k.Cf().limbo {
      i := 0;
    } else {
      i := OnSomeList(k.Below(), o);
      i := i + 1;
    }
  }

  /** An object that is in limbo while a call is running stays alive as long as that call is active,
      whatever happens: it is on the list of this call, or of one further down. */
  lemma TemporariesStay(s: Session, run: seq<Step>, o: Obj)
    requires Sound(s) && s.m.k.base > 0 && s.m.k.HasFrame() && o in s.m.limboed
    requires AllowedRun(s, run) && Active(RunAll(s, run).m, s.m.k.Cf().serial, s.m.k.base)
    ensures o in RunAll(s, run).m.limboed && IsLive(RunAll(s, run).m.st, Ref(o))
  {
    hide ChainOk, Accounted, CallsOk, Calls, OwnedValues, LimboObjects, Count, RunAll, AllowedRun, Active, Evolves,
         NativesActive;
    var m, m2 := s.m, RunAll(s, run).m;
    RunEvolves(s, run);
    RunKeepsInvariant(s, run);
    CountPositive(AsRefs(LimboObjects(m.k)), o);
    InLimbo(m, o);
    var i := OnSomeList(m.k, o);
    var c := Calls(m.k)[i];
    TopCall(m.k);
    SerialsBelow(m, i);
    AllActive(m, m2, i);
    ListKept(s, run, c.cf.serial, c.base, o);
    ListedAlive(m2, c.cf.serial, c.base, o);
  }

  lemma InLimbo(m: Machine, o: Obj)
    requires LimboOk(m) && o in m.limboed
    ensures o in LimboObjects(m.k)
  {
    CountAsRefs(LimboObjects(m.k), o);
  }

  lemma SerialsBelow(m: Machine, i: nat)
    requires Inv(m) && i < |Calls(m.k)|
    ensures Calls(m.k)[i].cf.serial < m.next
  {
    hide ChainOk, Calls;
  }

  /** If the running call is still active later, then so are all that were active below it. */
  lemma AllActive(m: Machine, m2: Machine, i: nat)
    requires Inv(m) && Evolves(m, m2) && i < |Calls(m.k)|
    requires m.k.base > 0 && m.k.HasFrame() && Active(m2, m.k.Cf().serial, m.k.base)
    ensures Active(m, Calls(m.k)[i].cf.serial, Calls(m.k)[i].base)
    ensures Active(m2, Calls(m.k)[i].cf.serial, Calls(m.k)[i].base)
  {
    hide ChainOk, Calls, CallsOk;
    TopCall(m.k);
    SerialsBelow(m, 0);
    var j :| 0 <= j < |Calls(m2.k)| && Calls(m2.k)[j].cf.serial == m.k.Cf().serial && Calls(m2.k)[j].base == m.k.base;
    assert IsSuffix(Calls(m2.k)[j..], Calls(m.k));
    SuffixWhole(m, Calls(m2.k)[j..]);
    assert Calls(m2.k)[j + i] == Calls(m2.k)[j..][i] == Calls(m.k)[i];
  }

  /** A suffix of the active calls that begins with the running call is all of them. */
  lemma SuffixWhole(m: Machine, s: seq<ActiveCall>)
    requires Inv(m) && IsSuffix(s, Calls(m.k)) && s != [] && s[0].base == Calls(m.k)[0].base
    ensures s == Calls(m.k)
  {
    hide ChainOk, Calls, LayoutChain;
    var n := |Calls(m.k)| - |s|;
    assert s[0] == Calls(m.k)[n];
    CallBases(m.k, n);
  }

  // ---------------------------------------------------------------------------------------
  // Temporaries
  // ---------------------------------------------------------------------------------------

  /** `i` fetches a value into register `a`, and does not throw an exception. */
  predicate Fetches(m: Machine, i: Instr, a: nat)
    requires m.k.HasFrame()
  {
    match i
    case GetVar(r, b) => r == a && b < |m.statics|
    case GetUval(r, _, _) => r == a
    case GetArgI(r, b) => r == a && b < m.Cf().argc
    case New(r) => r == a
    case IndGet(r, b, c) =>
      && r == a && m.Reg(c).Ref? && m.Reg(c).o < |m.st| && IndexOf(m.Reg(b)).Some?
      && 0 <= IndexOf(m.Reg(b)).value < |m.st[m.Reg(c).o].items|
    case _ => false
  }

  lemma CoveredBy(m: Machine, a: nat, v: Value)
    requires ChainOk(m.k) && !InNative(m.k) && m.k.base > 0 && a < FrameSize(m.k.Cf().f)
    ensures var g, r := Grab(WriteReg(m, a, v), v), Receive(WriteReg(m, a, v), v);
      && Covers(g, a, v) && Covers(r, a, v) && g.k.Cf().serial == m.k.Cf().serial == r.k.Cf().serial
      && g.k.base == m.k.base == r.k.base
  {
    hide ChainOk;
    RegisterCell(m, a);
    FrameBelowSp(m.k);
    WriteKeepsFrame(m, m.k.base + a, v);
  }

  /** Register `a` has the value, and if that is an object then it is in limbo. */
  predicate Covers(m: Machine, a: nat, v: Value) {
    m.k.HasFrame() && m.Reg(a) == v && (v.Ref? ==> v.o in m.limboed)
  }

  lemma FetchCovers(m: Machine, i: Instr, a: nat)
    requires Inv(m) && !InNative(m.k) && !IsControl(i) && WellCoded(m, i) && Fetches(m, i, a)
    ensures var m1 := PerformValue(m, i).m;
      && m1.k.HasFrame() && m1.k.Cf().serial == m.k.Cf().serial && m1.k.base == m.k.base
      && (m1.Reg(a).Ref? ==> m1.Reg(a).o in m1.limboed)
  {
    hide ChainOk, Accounted, LimboOk, CallsOk, Calls, OwnedValues, LimboObjects, Owns, UvBase, Grab, Receive,
      WriteReg, ThrowCode,
         ClearArgs, Construct, Own;
    match i
    case GetVar(_, b) => CoveredBy(m, a, m.statics[b]);
    case GetUval(_, b, c) => CoveredBy(m, a, RegValue(m.k.heap, UvBase(m.k.heap, m.k.base, c) + b));
    case GetArgI(_, b) => CoveredBy(m, a, RegValue(m.k.heap, m.Cf().argv + b));
    case New(_) =>
      var v := Ref(|m.st|);
      var m1 := m.(st := Construct(m.st, Arguments(m.k)));
      CoveredBy(m1, a, v);
      StillCovers(Receive(WriteReg(m1, a, v), v), a, v);
    case IndGet(_, b, c) =>
      var v := m.st[m.Reg(c).o].items[IndexOf(m.Reg(b)).value];
      CoveredBy(TakeRef(m, v), a, v);
  }

  lemma StillCovers(m: Machine, a: nat, v: Value)
    requires Covers(m, a, v)
    ensures Covers(ClearArgs(m), a, v) && ClearArgs(m).k.Cf() == m.k.Cf() && ClearArgs(m).k.base == m.k.base
  {
    hide Release;
  }

  /** A value that is fetched from a variable, an argument or a container, or made by NEW, has an
      owner as long as the call is active, whatever happens to the place that it came from. */
  lemma FetchedStays(s: Session, i: Instr, a: nat, run: seq<Step>)
    requires Sound(s) && Allowed(s, Op(i)) && Fetches(s.m, i, a) && AllowedRun(Execute(s, Op(i)), run)
    requires Active(RunAll(Execute(s, Op(i)), run).m, s.m.k.Cf().serial, s.m.k.base)
    ensures var v := Execute(s, Op(i)).m.Reg(a); var m2 := RunAll(Execute(s, Op(i)), run).m;
      Rooted(m2, v) && IsLive(m2.st, v)
  {
    hide ChainOk, Accounted, LimboOk, CallsOk, Calls, OwnedValues, LimboObjects, RunAll, AllowedRun, Active,
         PerformValue, ValueCoded, Rooted, NativesActive, Evolves;
    assert !IsControl(i);
    StepKeepsInvariant(s, Op(i));
    AdvanceValue(s.m, Size(i), i);
    AdvanceSame(s.m, Size(i));
    SameFetch(s.m, i, a);
    FetchCovers(Advance(s.m, Size(i)), i, a);
    var s1 := Execute(s, Op(i));
    var v, m2 := s1.m.Reg(a), RunAll(s1, run).m;
    RunKeepsInvariant(s1, run);
    if v.Ref? {
      TemporariesStay(s1, run, v.o);
      LimboRooted(m2, v);
    }
    assert v.Ref? || (Rooted(m2, v) && IsLive(m2.st, v)) by { PlainRooted(m2, v); }
  }

  lemma PlainRooted(m: Machine, v: Value)
    ensures !v.Ref? ==> Rooted(m, v) && IsLive(m.st, v)
  {
  }

  lemma SameFetch(m: Machine, i: Instr, a: nat)
    requires m.k.HasFrame() && Fetches(m, i, a)
    ensures Advance(m, Size(i)).k.HasFrame() && Fetches(Advance(m, Size(i)), i, a)
  {
  }

  lemma LimboRooted(m: Machine, v: Value)
    requires Inv(m) && v.Ref? && v.o in m.limboed
    ensures Rooted(m, v)
  {
    hide ChainOk, Accounted, CallsOk, Calls, OwnedValues, LimboObjects, Count;
    RootsCount(m, [], v.o);
    assert Roots(m) + [] == Roots(m);
    assert Count(AsRefs(LimboObjects(m.k)), v.o) == 1;
  }
}
