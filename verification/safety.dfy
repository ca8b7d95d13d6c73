/** Every instruction of well-formed code keeps the invariant of the VM. */
module Safety {
  import opened Values
  import opened ObjectStore
  import opened CallStack
  import opened Frames
  import opened MachineState
  import opened CallLinks
  import opened Instructions
  import opened LeavingCalls

  // ---------------------------------------------------------------------------------------
  // What instructions need
  // ---------------------------------------------------------------------------------------

  /** A register that is no variable: a temporary, or the place for a result. */
  ghost predicate Temp(m: Machine, a: nat)
    requires m.k.HasFrame()
  {
    a < FrameSize(m.k.Cf().f) && a !in m.k.Vars()
  }

  /** The object referred to by `v` has an owner besides the slot that holds `was`. */
  ghost predicate KeepsOwner(m: Machine, v: Value, was: Value) {
    v.Ref? ==> Count(Roots(m), v.o) > Is(was, v.o)
  }

  /** `f` may be called across `levels` levels: if it uses upvalues, it is declared inside the
      function that is so many levels up from the caller. */
  ghost predicate CalledAs(m: Machine, f: Function, levels: nat)
    requires m.k.HasFrame()
  {
    && WellFormedFunction(f)
    && levels <= m.k.Cf().f.need
    && (f.need > 0 ==> f.parent == Ancestor(m.k.Cf().f, levels))
  }

  /** A call of `f` from the frame at `base` that does not say how many levels it crosses gets a link
      to that frame. */
  predicate LinkFits(k: Stack, f: Function) {
    f.need > 0 ==> k.base > 0 && k.HasFrame() && f.parent == Some(k.Cf().f)
  }

  /** Calling a function value throws no exception. */
  predicate Enters(m: Machine, f: Function, wanted: bool) {
    PassedCode(m, f) == XOK && (wanted ==> f.results)
  }

  /** A value may be called. That a function which is entered finds its upvalues is not in the hands of
      the compiler. */
  predicate ValueCallFits(m: Machine, callee: Value, wanted: bool) {
    callee.Callable? ==>
      WellFormedFunction(callee.f) && (Enters(m, callee.f, wanted) ==> LinkFits(m.k, callee.f))
  }

  /** A block of an exception statement in the running function. */
  ghost predicate BlockFits(m: Machine, f: Function)
    requires m.k.HasFrame()
  {
    && WellFormedFunction(f) && !f.native
    && (f.results || m.k.Cf().result < 0)
    && (f.need > 0 ==> f.parent == Some(m.k.Cf().f))
  }

  /** If the running call has a slot for a result, there is no object in it. */
  predicate NothingWaiting(k: Stack)
    requires k.HasFrame()
  {
    k.Cf().result >= 0 ==> !RegValue(k.heap, k.Cf().result).Ref?
  }

  ghost predicate ValueCoded(m: Machine, i: Instr)
    requires m.k.HasFrame() && !IsControl(i)
  {
    var cf := m.k.Cf();
    var fs := FrameSize(cf.f);
    match i
    case Ldi(a, _) => Temp(m, a)
    case Move(a, b) => Temp(m, a) && b < fs
    case Push(a) => a < fs && Rooted(m, m.Reg(a))
    case Init(a, b) => Temp(m, a) && b < fs && Rooted(m, m.Reg(b)) && |m.k.Vars()| < CleanSize(cf.f)
    case Assign(a, b) => a in m.k.Vars() && b < fs && KeepsOwner(m, m.Reg(b), m.Reg(a))
    case Clean(a) => a <= |m.k.Vars()|
    case GetUval(a, b, c) =>
      Temp(m, a) && c <= cf.f.need && Owns(m.k, UvBase(m.k.heap, m.k.base, c) + b)
    case SetUval(a, b, c) =>
      var j := UvBase(m.k.heap, m.k.base, c) + b;
      a < fs && c <= cf.f.need && Owns(m.k, j) && KeepsOwner(m, m.Reg(a), RegValue(m.k.heap, j))
    case GetVar(a, b) => Temp(m, a) && b < |m.statics|
    case SetVar(a, b) => a < fs && b < |m.statics| && KeepsOwner(m, m.Reg(a), m.statics[b])
    case GetArgI(a, b) => Temp(m, a)
    case SetArgI(a, b) =>
      a < fs && (b < cf.argc ==> KeepsOwner(m, m.Reg(a), RegValue(m.k.heap, cf.argv + b)))
    case IndGet(a, b, c) => Temp(m, a) && b < fs && c < fs && Rooted(m, m.Reg(c))
    case IndSet(a, b, c) =>
      a < fs && b < fs && c < fs && Rooted(m, m.Reg(a)) && Rooted(m, m.Reg(c))
    case New(a) => Temp(m, a)
  }

  ghost predicate ControlCoded(m: Machine, i: Instr)
    requires m.k.HasFrame() && IsControl(i)
  {
    var cf := m.k.Cf();
    var fs := FrameSize(cf.f);
    match i
    case Call(a) => a < fs && ValueCallFits(m, m.Reg(a), false)
    case CallR(a, b) => a < fs && Temp(m, b) && ValueCallFits(m, m.Reg(a), true)
    case CCall(levels, f) => CalledAs(m, f, levels)
    case CCallR(levels, b, f) => Temp(m, b) && CalledAs(m, f, levels)
    case Return => m.k.sp == m.k.sbase
    case ReturnR(a) => m.k.sp == m.k.sbase && a < fs && Rooted(m, m.Reg(a))
    case Try(handler, f) => BlockFits(m, f) && HandlerFits(handler, cf)
    case Untry(f) => BlockFits(m, f)
    case Throw(a) =>
      a < fs && KeepsOwner(m, m.Reg(a), m.exception)
      && (m.Reg(a) == Integer(XRETURN) ==> NothingWaiting(m.k))
    case Retry => m.k.sp == m.k.sbase && cf.mark.isCatcher
    case RetX => cf.result < 0
    case RetXR(a) => a < fs && Rooted(m, m.Reg(a))
  }

  /** What the next instruction needs. The compiler guarantees it, but for the functions that CALL and CALLR
      enter, and for the numbers that THROW throws. */
  ghost predicate WellCoded(m: Machine, i: Instr)
    requires m.k.HasFrame()
  {
    if IsControl(i) then ControlCoded(m, i) else ValueCoded(m, i)
  }

  /** The running EEL function may execute the instruction. */
  ghost predicate CanExecute(m: Machine, i: Instr) {
    !InNative(m.k) && WellCoded(m, i)
  }

  /** `a` is what is left of `b` when some of its first calls are gone. */
  ghost predicate IsSuffix(a: seq<ActiveCall>, b: seq<ActiveCall>) {
    |a| <= |b| && a == b[|b| - |a|..]
  }

  /** A call that is active after a step, and was made before it, was active all along: it and
      all calls below it are as they were. */
  ghost predicate Evolves(m: Machine, m': Machine) {
    && m.next <= m'.next
    && forall i :: 0 <= i < |Calls(m'.k)| && Calls(m'.k)[i].cf.serial < m.next ==>
         IsSuffix(Calls(m'.k)[i..], Calls(m.k))
  }

  /** No native function has ended, and no call but the running one is new. */
  ghost predicate NativesStay(m: Machine, m': Machine) {
    && (forall c :: c in Calls(m.k) && c.cf.f.native ==> c in Calls(m'.k))
    && (forall i :: 0 < i < |Calls(m'.k)| ==> Calls(m'.k)[i] in Calls(m.k))
  }

  ghost predicate Goes(m: Machine, m': Machine) {
    Inv(m') && Evolves(m, m') && NativesStay(m, m')
  }

  /** The state after a step is sound, and if the VM goes on then it is still running EEL code. */
  ghost predicate OutcomeOk(m: Machine, r: Outcome) {
    && Goes(m, r.m)
    && (r.Continue? ==> !InNative(r.m.k))
  }

  lemma EvolvesTail(m: Machine, m': Machine, n: nat)
    requires m'.next == m.next && n <= |Calls(m.k)| && Calls(m'.k) == Calls(m.k)[n..]
    ensures Evolves(m, m')
    ensures (forall i :: 0 <= i < n ==> !Calls(m.k)[i].cf.f.native) ==> NativesStay(m, m')
  {
    hide Calls;
    forall i | 0 <= i < |Calls(m'.k)| ensures IsSuffix(Calls(m'.k)[i..], Calls(m.k)) {
      assert Calls(m'.k)[i..] == Calls(m.k)[n + i..];
    }
    forall c | c in Calls(m.k) && c !in Calls(m'.k)
      ensures exists i :: 0 <= i < n && Calls(m.k)[i] == c
    {
      assert Calls(m.k) == Calls(m.k)[..n] + Calls(m.k)[n..];
    }
  }

  /** Calls are left, and then perhaps another one made. */
  lemma StayTrans(a: Machine, b: Machine, c: Machine, n: nat)
    requires n <= |Calls(a.k)| && Calls(b.k) == Calls(a.k)[n..]
    requires NativesStay(a, b) && NativesStay(b, c)
    ensures NativesStay(a, c)
  {
    hide Calls;
  }

  lemma EvolvesTrans(a: Machine, b: Machine, c: Machine)
    requires Evolves(a, b) && Evolves(b, c)
    ensures Evolves(a, c)
  {
    hide Calls;
    forall i | 0 <= i < |Calls(c.k)| && Calls(c.k)[i].cf.serial < a.next
      ensures IsSuffix(Calls(c.k)[i..], Calls(a.k))
    {
      var j := |Calls(b.k)| - |Calls(c.k)[i..]|;
      assert IsSuffix(Calls(c.k)[i..], Calls(b.k));
      assert Calls(b.k)[j..][0] == Calls(c.k)[i..][0];
      assert IsSuffix(Calls(b.k)[j..], Calls(a.k));
    }
  }

  lemma EvolvesPush(m: Machine, m': Machine, c: ActiveCall)
    requires m'.next >= m.next && c.cf.serial >= m.next && Calls(m'.k) == [c] + Calls(m.k)
    ensures Evolves(m, m') && NativesStay(m, m')
  {
    hide Calls;
    forall i | 0 <= i < |Calls(m'.k)| && Calls(m'.k)[i].cf.serial < m.next
      ensures IsSuffix(Calls(m'.k)[i..], Calls(m.k))
    {
      assert Calls(m'.k)[i..] == Calls(m.k)[i - 1..];
    }
  }

  lemma EvolvesSame(m: Machine, m': Machine)
    requires SameCalls(m, m')
    ensures Evolves(m, m') && NativesStay(m, m')
  {
    hide Calls;
    assert Calls(m.k)[0..] == Calls(m.k);
    EvolvesTail(m, m', 0);
  }

  // ---------------------------------------------------------------------------------------
  // Registers
  // ---------------------------------------------------------------------------------------

  lemma RegisterCell(m: Machine, a: nat)
    requires ChainOk(m.k) && m.k.base > 0 && m.k.HasFrame() && a < FrameSize(m.k.Cf().f)
    ensures m.k.base + a < m.k.sbase <= m.k.sp <= |m.k.heap| && m.k.heap[m.k.base + a].Val?
  {
  }

  lemma TempIsFree(m: Machine, a: nat)
    requires ChainOk(m.k) && m.k.base > 0 && m.k.HasFrame() && Temp(m, a)
    ensures FreeSlot(m.k, m.k.base + a)
    ensures m.k.base + a < m.k.sbase
  {
    RegisterCell(m, a);
    assert LayoutOk(m.k) && LayoutChain(m.k.Below());
    OwnsBelow(m.k, m.k.base + a);
  }

  lemma VarIsOwned(m: Machine, a: nat)
    requires m.k.base > 0 && m.k.HasFrame() && a in m.k.Vars()
    ensures Owns(m.k, m.k.base + a)
  {
    assert OwnsHere(m.k, m.k.base + a);
  }

  lemma ArgIsOwned(m: Machine, b: nat)
    requires ChainOk(m.k) && m.k.base > 0 && m.k.HasFrame() && b < m.k.Cf().argc
    ensures Owns(m.k, m.k.Cf().argv + b)
  {
    assert OwnsHere(m.k.Below(), m.k.Cf().argv + b);
  }

  /** The place for the result of the running call is free. */
  lemma ResultIsFree(m: Machine)
    requires ChainOk(m.k) && !InNative(m.k) && m.k.Cf().result >= 0
    ensures FreeSlot(m.k.Below(), m.k.Cf().result) && FreeSlot(m.k, m.k.Cf().result)
    ensures m.k.Cf().result < m.k.Cf().rSp
  {
    assert LayoutOk(m.k) && LayoutChain(m.k.Below()) && LinksOk(m.k);
    OwnsBelow(m.k, m.k.Cf().result);
  }

  lemma AdvanceChain(k: Stack, pc: nat)
    requires ChainOk(k) && k.base > 0 && k.HasFrame() && !k.Cf().f.native
    ensures ChainOk(k.(pc := pc)) && Calls(k.(pc := pc)) == Calls(k)
    ensures OwnedValues(k.(pc := pc)) == OwnedValues(k) && LimboObjects(k.(pc := pc)) == LimboObjects(k)
    ensures forall j: nat :: Owns(k.(pc := pc), j) == Owns(k, j)
  {
    hide ArgValues, VarValues, DistinctVars, HoldsValues;
    var k' := k.(pc := pc);
    assert k'.Below() == k.Below() && k'.Cf() == k.Cf() && k'.Vars() == k.Vars();
    assert LayoutOk(k') && LinksOk(k');
  }

  lemma AdvanceOk(m: Machine, pc: nat)
    requires Inv(m) && !InNative(m.k)
    ensures var m' := m.(k := m.k.(pc := pc));
      && Inv(m') && !InNative(m'.k) && Calls(m'.k) == Calls(m.k) && Roots(m') == Roots(m)
      && forall j: nat :: Owns(m'.k, j) == Owns(m.k, j)
  {
    hide ChainOk, Accounted, LimboOk, CallsOk, Calls, OwnedValues, LimboObjects, Owns, Count;
    AdvanceChain(m.k, pc);
    RebalanceSame(m, [], m.(k := m.k.(pc := pc)), []);
  }

  // ---------------------------------------------------------------------------------------
  // Values
  // ---------------------------------------------------------------------------------------

  lemma SlotsSame(k: Stack, j: nat, v: Value)
    requires ChainOk(k) && j < k.sp <= |k.heap| && k.heap[j].Val?
    ensures forall i: nat :: Owns(k.Write(j, v), i) == Owns(k, i)
  {
    forall i: nat ensures Owns(k.Write(j, v), i) == Owns(k, i) {
      ShapeOwns(k, k.Write(j, v).heap, i);
    }
  }

  /** Disowning what a slot holds, and then copying a value there, is safe if the value has
      another owner. */
  lemma AssignCellOk(m: Machine, hand: seq<Value>, j: nat, v: Value)
    requires InvWith(m, hand) && Owns(m.k, j) && KeepsOwner(m, v, RegValue(m.k.heap, j))
    ensures InvWith(AssignCell(m, j, v), hand) && SameCalls(m, AssignCell(m, j, v))
  {
    hide ChainOk, Accounted, LimboOk, CallsOk, Calls, LimboObjects, OwnedValues, Count, Release, Own;
    var was := RegValue(m.k.heap, j);
    NilHand(m, hand);
    WriteOwnedOk(m, hand, j, Nil);
    var m1 := WriteCell(m, j, Nil);
    if v.Ref? {
      RootsCount(m, hand, v.o);
      RootsCount(m1, hand, v.o);
      CountAppend(Roots(m), hand, v.o);
    }
    LiveAfterGiveUp(m1, hand, [was], v);
    GiveUpOk(m1, hand, [was]);
    var m2 := GiveUp(m1, [was]);
    TakeRefOk(m2, hand, v);
    var m3 := TakeRef(m2, v);
    SlotsSame(m.k, j, Nil);
    assert m3.k == m1.k == m.k.Write(j, Nil);
    WriteOwnedOk(m3, hand, j, v);
    NilHand(WriteCell(m3, j, v), hand);
    assert RegValue(m3.k.heap, j) == Nil;
    assert m.k.heap[j := Val(Nil)][j := Val(v)] == m.k.heap[j := Val(v)];
    assert WriteCell(m3, j, v) == AssignCell(m, j, v);
  }

  /** Nil in hand is nothing in hand. */
  lemma NilHand(m: Machine, hand: seq<Value>)
    ensures InvWith(m, hand) <==> InvWith(m, hand + [Nil])
  {
    hide ChainOk, Accounted, LimboOk, CallsOk, Calls, LimboObjects, OwnedValues, Count;
    CountPush(hand, Nil);
    if InvWith(m, hand) { HandSame(m, hand, hand + [Nil]); }
    if InvWith(m, hand + [Nil]) { HandSame(m, hand + [Nil], hand); }
  }

  lemma PlainHand(m: Machine, hand: seq<Value>, v: Value)
    requires InvWith(m, hand) && !v.Ref?
    ensures InvWith(m, hand + [v])
  {
    hide ChainOk, Accounted, LimboOk, CallsOk, Calls, LimboObjects, OwnedValues, Count;
    CountPush(hand, v);
    HandSame(m, hand, hand + [v]);
  }

  lemma SlotIsLive(m: Machine, j: nat)
    requires Inv(m) && Owns(m.k, j)
    ensures IsLive(m.st, RegValue(m.k.heap, j))
  {
    hide ChainOk, LimboOk, CallsOk, Calls, LimboObjects, Accounted;
    var v := RegValue(m.k.heap, j);
    OwnsCell(m.k, j);
    if v.Ref? {
      WriteOk(m.k, j, Nil);
      CountPush(OwnedValues(m.k.Write(j, Nil)), v);
      CountPush(OwnedValues(m.k), Nil);
      RootsCount(m, [], v.o);
      assert Roots(m) + [] == Roots(m);
      RootedLive(m, [], v);
    }
  }

  lemma StaticIsLive(m: Machine, i: nat)
    requires Inv(m) && i < |m.statics|
    ensures IsLive(m.st, m.statics[i])
  {
    hide ChainOk, LimboOk, CallsOk, Calls, LimboObjects, Accounted, OwnedValues, Count;
    var v := m.statics[i];
    if v.Ref? {
      CountPositive(m.statics, v.o);
      OthersCount(m);
      RootsCount(m, [], v.o);
      assert Roots(m) + [] == Roots(m);
      RootedLive(m, [], v);
    }
  }

  /** The items of a container that is alive are alive. */
  lemma {:induction false} ItemIsLive(st: Store, roots: seq<Value>, c: Obj, i: nat)
    requires Accounted(st, roots) && c < |st| && st[c].live && i < |st[c].items|
    ensures IsLive(st, st[c].items[i])
  {
    var v := st[c].items[i];
    if v.Ref? {
      CountPositive(st[c].items, v.o);
      var st' := st[c := st[c].(items := [])];
      ItemCountUpdate(st, c, st'[c], v.o);
      assert ObjectAccounted(st, roots, v.o);
    }
  }

  lemma WriteKeepsFrame(m: Machine, j: nat, v: Value)
    requires ChainOk(m.k) && m.k.base > 0 && j < m.k.sp <= |m.k.heap| && m.k.heap[j].Val?
    ensures m.k.HasFrame()
    ensures var k' := m.k.Write(j, v);
      k'.HasFrame() && m.k.HasFrame() && k'.Cf() == m.k.Cf() && k'.Vars() == m.k.Vars()
  {
    ShapeLocal(m.k, m.k.Write(j, v).heap);
  }

  lemma WriteTempOk(m: Machine, hand: seq<Value>, a: nat, v: Value)
    requires InvWith(m, hand) && !InNative(m.k) && Temp(m, a)
    ensures var m' := WriteReg(m, a, v);
      && InvWith(m', hand) && !InNative(m'.k) && SameCalls(m, m')
      && m'.k.Cf() == m.k.Cf() && m'.k.Vars() == m.k.Vars() && m'.Reg(a) == v
  {
    hide ChainOk, Accounted, LimboOk, CallsOk, Calls, OwnedValues, LimboObjects;
    TempIsFree(m, a);
    WriteFreeOk(m, hand, m.k.base + a, v);
    RegisterCell(m, a);
    WriteKeepsFrame(m, m.k.base + a, v);
  }

  lemma EelFrame(m: Machine, hand: seq<Value>)
    requires InvWith(m, hand) && Calls(m.k) != [] && !Calls(m.k)[0].cf.f.native
    ensures !InNative(m.k) && m.k.base > 0 && m.k.HasFrame()
  {
  }

  lemma TopCall(k: Stack)
    requires ChainOk(k) && k.base > 0
    ensures k.HasFrame() && Calls(k) != [] && Calls(k)[0] == ActiveCall(k.base, k.Cf().(limbo := []))
  {
  }

  /** Reading a value that some slot owns, into a temporary that is then covered by limbo. */
  lemma ReadOk(m: Machine, a: nat, v: Value)
    requires Inv(m) && !InNative(m.k) && Temp(m, a) && IsLive(m.st, v)
    ensures OutcomeOk(m, Continue(Grab(WriteReg(m, a, v), v)))
  {
    hide ChainOk, Accounted, LimboOk, CallsOk, Calls, OwnedValues, LimboObjects;
    WriteTempOk(m, [], a, v);
    GrabOk(WriteReg(m, a, v), [], v);
    TopCall(m.k);
    EelFrame(Grab(WriteReg(m, a, v), v), []);
  }

  // ---------------------------------------------------------------------------------------
  // Exceptions
  // ---------------------------------------------------------------------------------------

  /** The links of an active call, in terms of the call that made it. */
  lemma {:induction false} CallLinksOk(k: Stack, i: nat)
    requires ChainOk(k) && i < |Calls(k)|
    ensures var cf := Calls(k)[i].cf;
      && -1 <= cf.result
      && (cf.mark.catcher.Some? ==> cf.mark.tryBlock)
      && (cf.mark.InBlock() ==> i + 1 < |Calls(k)| && !Calls(k)[i + 1].cf.f.native)
      && (cf.mark.catcher.Some? ==> HandlerFits(cf.mark.catcher.value, Calls(k)[i + 1].cf))
      && (!cf.f.native && cf.result >= 0 ==> FreeSlot(Caller(k, i + 1), cf.result))
    decreases i
  {
    hide LayoutOk, DistinctVars, HoldsValues, Owns, WellFormedFunction;
    assert LayoutChain(k) && LinkChain(k) && k.HasFrame() && LinksOk(k);
    var b := k.Below();
    assert Calls(k) == [ActiveCall(k.base, k.Cf().(limbo := []))] + Calls(b);
    assert Caller(k, i + 1) == Caller(b, i);
    if i > 0 {
      CallLinksOk(b, i - 1);
    } else if k.Cf().mark.InBlock() {
      TopCall(b);
    }
  }

  lemma SetExceptionKeeps(m: Machine, hand: seq<Value>, v: Value)
    requires InvWith(m, hand + [v])
    ensures InvWith(SetException(m, v), hand)
    ensures SetException(m, v).k == m.k && SetException(m, v).next == m.next
  {
    hide ChainOk, Accounted, LimboOk, CallsOk, Calls, OwnedValues, LimboObjects, Release;
    SetExceptionOk(m, hand, v);
    var m1 := m.(exception := v);
    GiveUpOk(m1, hand, [m.exception]);
    assert GiveUp(m1, [m.exception]) == SetException(m, v);
  }

  /** Calling the catcher: it owns the exception from then on. */
  lemma CallCatcherOk(m: Machine, handler: Function)
    requires Inv(m) && !InNative(m.k) && HandlerFits(handler, m.k.Cf())
    ensures var m' := CallCatcher(m, handler);
      && OutcomeOk(m, Continue(m')) && m'.exception == Nil && m'.next == m.next + 1
      && |Calls(m'.k)| == |Calls(m.k)| + 1 && Calls(m'.k)[1..] == Calls(m.k)
      && Calls(m'.k)[0] == ActiveCall(m'.k.base, NewFrame(m.k, handler, m.k.Cf().result, m.k.base, m.next,
                                                       PLAIN.(isCatcher := true)))
  {
    hide ChainOk, Accounted, LimboOk, CallsOk, OwnedValues, LimboObjects, CheckArgs, PushFrame, WellFormedFunction,
         Evolves, CanEnter, AddClean;
    var result, mark := m.k.Cf().result, PLAIN.(isCatcher := true);
    CatcherEnters(m, handler);
    EnterOk(m, [], handler, result, 0, mark);
    EnterFrame(m, handler, result, 0, mark);
    var m1 := Enter(m, handler, result, 0, mark);
    var v := m.exception;
    assert Temp(m1, 0);
    WriteTempOk(m1, [], 0, v);
    var m2 := WriteReg(m1, 0, v);
    NilHand(m2, []);
    SetExceptionOk(m2, [], Nil);
    var m3 := m2.(exception := Nil);
    assert [] + [v] == [v] && [] + [m3.Reg(0)] == [v];
    AddVarOk(m3, [], 0);
    assert CallCatcher(m, handler) == AddVar(m3, 0) by { CallCatcherIs(m, handler); }
    EelFrame(AddVar(m3, 0), []);
    EvolvesPush(m, AddVar(m3, 0), ActiveCall(m1.k.base, m1.k.Cf()));
  }

  lemma CallCatcherIs(m: Machine, handler: Function)
    requires m.k.HasFrame()
    ensures var m1 := Enter(m, handler, m.k.Cf().result, 0, PLAIN.(isCatcher := true));
      CallCatcher(m, handler) == AddVar(WriteReg(m1, 0, m.exception).(exception := Nil), 0)
  {
  }

  lemma CatcherEnters(m: Machine, handler: Function)
    requires ChainOk(m.k) && !InNative(m.k) && HandlerFits(handler, m.k.Cf())
    ensures CanEnter(m, handler, m.k.Cf().result, 0, PLAIN.(isCatcher := true))
  {
    BlockEnters(m, handler, PLAIN.(isCatcher := true));
  }

  /** A block of the running function can be entered. */
  lemma BlockEnters(m: Machine, f: Function, mark: Mark)
    requires ChainOk(m.k) && !InNative(m.k) && BlockFits(m, f)
    requires mark.catcher.Some? ==> mark.tryBlock && HandlerFits(mark.catcher.value, m.k.Cf())
    ensures CanEnter(m, f, m.k.Cf().result, 0, mark)
  {
    hide LayoutOk, LayoutChain, WellFormedFunction;
    assert LinksOk(m.k);
    if m.k.Cf().result >= 0 { ResultIsFree(m); }
    TopCall(m.k);
    assert UvBase(m.k.heap, m.k.base, 0) == m.k.base;
    if f.need > 0 {
      assert Calls(m.k)[0].base == m.k.base && f.parent == Some(Calls(m.k)[0].cf.f);
    }
  }
}
