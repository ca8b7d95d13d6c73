/** What the loops of the VM need to know: each round brings the state closer to what the
    function that specifies the loop describes. */
module VmLoops {
  import opened Values
  import opened ObjectStore
  import opened CallStack
  import opened Frames
  import opened MachineState
  import opened CallLinks
  import opened Instructions
  import opened LeavingCalls
  import opened Unwinding
  import opened Safety
  import opened ExceptionFlow
  import opened CutCalls
  import opened Steps
  import opened NativeCode
  import opened NativeSteps
  import opened Runs
  import opened ExceptionTheorems

  /** The frame of the call at `base` is there, and so are those that `n` upvalue links lead to. */
  predicate UvLinked(heap: seq<Cell>, base: nat, n: nat)
    decreases n
  {
    n > 0 ==>
      && base >= CFREGS && base - CFREGS < |heap| && heap[base - CFREGS].Frame?
      && UvLinked(heap, heap[base - CFREGS].cf.upvalues, n - 1)
  }

  /** One round of `limbo_clean`. */
  lemma LimboRound(st: Store, limbo: seq<Obj>, n: nat)
    requires n < |limbo|
    ensures limbo[n..][1..] == limbo[n + 1..]
    ensures Release(st, AsRefs(limbo[n..])) == Release(Release(st, [Ref(limbo[n])]), AsRefs(limbo[n + 1..]))
  {
    hide Release;
    ReleaseAppend(st, [Ref(limbo[n])], AsRefs(limbo[n + 1..]));
  }

  lemma LimboWhole(k: Stack)
    requires k.HasFrame()
    ensures var limbo := k.Cf().limbo; SetLimbo(k, limbo[0..]) == k && SetLimbo(k, limbo[|limbo|..]) == SetLimbo(k, [])
  {
    var limbo := k.Cf().limbo;
    assert limbo[0..] == limbo && limbo[|limbo|..] == [];
    assert SetLimbo(k, limbo).heap == k.heap;
  }

  /** Taking the first object off the limbo list of a call. */
  lemma LimboShorter(k: Stack, limbo: seq<Obj>, n: nat)
    requires k.HasFrame() && n <= |limbo|
    ensures var k' := SetLimbo(k, limbo[n..]);
      && k'.HasFrame() && k'.Cf().limbo == limbo[n..]
      && (n < |limbo| ==> SetLimbo(k', limbo[n + 1..]) == SetLimbo(k, limbo[n + 1..]))
  {
  }

  /** All but the first `n` objects of a limbo list. */
  function AllBut(all: set<Obj>, limbo: seq<Obj>, n: nat): set<Obj>
    requires n <= |limbo|
  {
    all - set o | o in limbo[..n]
  }

  lemma AllButNext(all: set<Obj>, limbo: seq<Obj>, n: nat)
    requires n < |limbo|
    ensures AllBut(all, limbo, n) - {limbo[n]} == AllBut(all, limbo, n + 1)
  {
    assert limbo[..n + 1] == limbo[..n] + [limbo[n]];
  }

  lemma AllButEnds(all: set<Obj>, limbo: seq<Obj>)
    ensures AllBut(all, limbo, 0) == all && AllBut(all, limbo, |limbo|) == all - set o | o in limbo
  {
    assert limbo[..|limbo|] == limbo;
  }

  /** One round of `clean`. */
  lemma VarsRound(st: Store, heap: seq<Cell>, base: nat, vars: seq<nat>, downto: nat, i: nat)
    requires downto < i <= |vars|
    ensures Release(st, VarValues(heap, base, vars[downto..i])) ==
            Release(Release(st, [RegValue(heap, base + vars[i - 1])]), VarValues(heap, base, vars[downto..i - 1]))
  {
    hide Release;
    var part := vars[downto..i];
    assert part[|part| - 1] == vars[i - 1] && part[..|part| - 1] == vars[downto..i - 1];
    ReleaseAppend(st, [RegValue(heap, base + vars[i - 1])], VarValues(heap, base, vars[downto..i - 1]));
  }

  lemma VarsDone(st: Store, heap: seq<Cell>, base: nat, vars: seq<nat>, n: nat)
    requires n <= |vars|
    ensures Release(st, VarValues(heap, base, vars[n..n])) == st
  {
    assert vars[n..n] == [];
  }

  lemma ReleaseNothing(st: Store)
    ensures Release(st, []) == st
  {
  }

  // ---------------------------------------------------------------------------------------
  // Calls
  // ---------------------------------------------------------------------------------------

  lemma {:induction false} UvSame(a: seq<Cell>, b: seq<Cell>, base: nat, n: nat)
    requires UvLinked(a, base, n) && |a| <= |b| && b[..|a|] == a
    ensures UvLinked(b, base, n) && UvBase(b, base, n) == UvBase(a, base, n)
    decreases n
  {
    if n > 0 {
      assert b[base - CFREGS] == b[..|a|][base - CFREGS] == a[base - CFREGS];
      UvSame(a, b, a[base - CFREGS].cf.upvalues, n - 1);
    }
  }

  /** The upvalues of a new call start where those of its caller are. */
  lemma UvOfCallee(k: Stack, heap: seq<Cell>, base: nat, levels: nat)
    requires k.sp <= |k.heap| && UvLinked(k.heap[..k.sp], k.base, levels)
    requires k.sp <= |heap| && heap[..k.sp] == k.heap[..k.sp]
    requires base >= CFREGS && base - CFREGS < |heap| && heap[base - CFREGS].Frame?
             && heap[base - CFREGS].cf.upvalues == k.base
    ensures UvLinked(heap, base, levels + 1) && UvBase(heap, base, levels + 1) == UvBase(k.heap, k.base, levels)
  {
    UvSame(k.heap[..k.sp], k.heap, k.base, levels);
    UvSame(k.heap[..k.sp], heap, k.base, levels);
  }

  /** As long as the compiler does not ask for more levels than the function has, the upvalue
      links are all there. */
  lemma {:induction false} UvLinkedOk(k: Stack, next: nat, i: nat, n: nat)
    requires ChainOk(k) && CallsOk(Calls(k), next)
    requires i < |Calls(k)| && n <= Calls(k)[i].cf.f.need
    ensures k.sp <= |k.heap| && UvLinked(k.heap[..k.sp], Calls(k)[i].base, n)
    decreases n
  {
    hide LayoutOk, LinksOk;
    ValuesAbove(k);
    if n > 0 {
      CallsInHeap(k, i);
      CallBases(k, i);
      FunctionsOk(k, i);
      assert UplinkOk(Calls(k), i);
      var p :| i < p < |Calls(k)| && Calls(k)[p].base == Calls(k)[i].cf.upvalues
               && Calls(k)[i].cf.f.parent == Some(Calls(k)[p].cf.f);
      UvLinkedOk(k, next, p, n - 1);
    }
  }

  /** The frame of a new call, filled in later. */
  lemma FrameFilledIn(k: Stack, f: Function, r0: int, u0: nat, result: int, up: nat, serial: nat, mark: Mark)
    requires k.base <= k.sbase <= k.sp <= |k.heap| && |k.heap| > 0
    ensures var k0 := PushFrame(k, f, r0, u0, serial, PLAIN);
      k0.HasFrame() && k0.Cf() == NewFrame(k, f, r0, u0, serial, PLAIN)
      && k0.SetFrame(NewFrame(k, f, result, up, serial, mark)) == PushFrame(k, f, result, up, serial, mark)
      && k0.pc == (if f.native then k.pc else 0) && k0.base == k.sp + TableCells(CleanSize(f)) + CFREGS
      && k.sp <= |k0.heap| && k0.heap[..k.sp] == k.heap[..k.sp]
  {
    hide Grow, FrameCells;
    var n := TableCells(CleanSize(f));
    var cf0, cf := NewFrame(k, f, r0, u0, serial, PLAIN), NewFrame(k, f, result, up, serial, mark);
    var cells := FrameCells(f, cf0);
    FrameCellSet(f, cf0, cf);
    var heap := Grow(k.heap, k.sp + n + CFREGS + FrameSize(f) + MINSTACK);
    SpliceUpdate(heap, k.sp, cells, n, Frame(cf));
    assert heap[..|k.heap|][..k.sp] == heap[..k.sp];
  }

  lemma FrameCellSet(f: Function, cf0: CallFrame, cf: CallFrame)
    ensures FrameCells(f, cf0)[TableCells(CleanSize(f)) := Frame(cf)] == FrameCells(f, cf)
  {
  }

  lemma SpliceUpdate(heap: seq<Cell>, at: nat, cells: seq<Cell>, n: nat, c: Cell)
    requires n < |cells| && at + |cells| <= |heap|
    ensures var spliced := heap[..at] + cells + heap[at + |cells|..];
      && |spliced| == |heap| && spliced[at + n] == cells[n] && spliced[..at] == heap[..at]
      && spliced[at + n := c] == heap[..at] + cells[n := c] + heap[at + |cells|..]
  {
  }

  /** The mark of a new call, set afterwards. */
  lemma EnterMarked(m: Machine, f: Function, result: int, mark: Mark)
    requires m.k.base <= m.k.sbase <= m.k.sp <= |m.k.heap| && |m.k.heap| > 0
    ensures var m0 := Enter(m, f, result, 0, PLAIN);
      m0.k.HasFrame() && Enter(m, f, result, 0, mark) == m0.(k := m0.k.SetFrame(m0.k.Cf().(mark := mark)))
  {
    FrameFilledIn(m.k, f, result, m.k.base, result, m.k.base, m.next, mark);
  }

  /** The cells of a new call that starting a catcher writes to. */
  lemma CatcherRoom(m: Machine, f: Function, result: int)
    requires m.k.base <= m.k.sbase <= m.k.sp <= |m.k.heap| && |m.k.heap| > 0
    requires !f.native && f.framesize > 0 && f.cleansize > 0
    ensures var k := Enter(m, f, result, 0, PLAIN).k;
      && k.HasFrame() && k.HasTable() && k.base < |k.heap| && k.Cf().cleantab < k.base - CFREGS
      && k.heap[k.Cf().cleantab].bytes[0] == 0 && |k.heap[k.Cf().cleantab].bytes| > 1
      && k.Cf().mark == PLAIN
  {
    FrameFilledIn(m.k, f, result, m.k.base, result, m.k.base, m.next, PLAIN);
    assert TableCells(f.cleansize) * VALUE_SIZE > 1;
  }

  // ---------------------------------------------------------------------------------------
  // Exceptions
  // ---------------------------------------------------------------------------------------

  /** One round of `unwind`. */
  lemma UnwindRound(m: Machine, hand: seq<Value>, n: nat)
    requires InvWith(m, hand) && n <= |Calls(m.k)| && m.k.base != Caller(m.k, n).base
    ensures n > 0 && m.k.base > 0 && Framed(m.k)
    ensures var m1 := Leave(CleanCall(m));
      && InvWith(m1, hand) && n - 1 <= |Calls(m1.k)| && m1.k.base < m.k.base
      && Caller(m1.k, n - 1).base == Caller(m.k, n).base
      && Unwind(m, Caller(m.k, n).base) == Unwind(m1, Caller(m.k, n).base)
  {
    hide ChainOk, Accounted, LimboOk, CallsOk, OwnedValues, LimboObjects, CleanCall, Leave, SameBelow, Framed;
    assert n > 0;
    CallerBase(m.k, n);
    ChainFramed(m.k);
    LeaveCallOk(m, hand);
    var m1 := Leave(CleanCall(m));
    BelowOk(m.k);
    CallerSame(m1.k, m.k.Below(), n - 1);
    SameBelowRegisters(Caller(m1.k, n - 1), Caller(m.k.Below(), n - 1));
    SameBelowRegisters(m1.k, m.k.Below());
    FrameBelowSp(m.k);
  }

  lemma CleanedFrame(m: Machine)
    requires Framed(m.k) && !InNative(m.k)
    ensures var m1 := CleanVars(m, 0);
      && m1.k.HasFrame() && CleanLimbo(m1).k.sbase <= CleanLimbo(m1).k.sp <= |CleanLimbo(m1).k.heap|
  {
    hide Release, VarValues;
  }

  lemma CleanedCall(m: Machine)
    requires Framed(m.k)
    ensures CleanCall(m).k.HasFrame()
  {
    hide Release, CallValues;
    CleanCallIs(m);
  }

  /** A result that waits to be received has a reference of its own. */
  lemma WaitingReceivable(m: Machine, v: Value)
    requires InvWith(m, [v])
    ensures v.Ref? && v.o in m.limboed ==> v.o < |m.st| && m.st[v.o].rc > 0
  {
    hide ChainOk, Accounted, LimboOk, CallsOk, Calls, OwnedValues, LimboObjects;
    assert [] + [v] == [v];
    if v.Ref? && v.o in m.limboed { ReceiveAgain(m, [], v); }
  }

  lemma CallerHere(k: Stack)
    ensures Caller(k, 0) == k
  {
  }

  lemma CallStep(k: Stack, n: nat)
    requires ChainOk(k) && n <= |Calls(k)| && Caller(k, n).base > 0
    ensures n < |Calls(k)| && Caller(k, n).HasFrame() && Caller(k, n + 1) == Caller(k, n).Below()
    ensures Caller(k, n).heap == k.heap
  {
    hide ChainOk, Calls, Caller;
    CallerCalls(k, n);
    CallerStep(k, n);
  }

  /** A block has a caller, which has a frame too. */
  lemma BlockStep(k: Stack, n: nat)
    requires ChainOk(k) && n < |Calls(k)| && Caller(k, n).HasFrame() && Caller(k, n).Cf().mark.InBlock()
    ensures n + 1 < |Calls(k)| && Caller(k, n + 1) == Caller(k, n).Below()
    ensures Caller(k, n + 1).base > 0 && Caller(k, n + 1).HasFrame() && Caller(k, n + 1).heap == k.heap
  {
    hide ChainOk, Calls, Caller;
    CallerCalls(k, n);
    CallLinksOk(k, n);
    CallerStep(k, n);
    CallerCalls(k, n + 1);
  }

  /** Where a return from call `n` leads. */
  lemma FunctionReturns(m: Machine, n: nat)
    requires !InNative(m.k) && InvWith(m, Waiting(m.k, m.k.Cf().result))
    requires n < |Calls(m.k)| && FunctionFrame(m.k) == Caller(m.k, n) && Caller(m.k, n).HasFrame()
    requires !Caller(m.k, n).Cf().mark.InBlock()
    ensures n + 1 <= |Calls(m.k)| && Caller(m.k, n).Cf().rBase == Caller(m.k, n + 1).base
    ensures var m0 := Unwind(m, Caller(m.k, n + 1).base);
      && m0.k.sbase <= m0.k.sp <= |m0.k.heap|
      && InvWith(ClearArgs(m0), Waiting(ClearArgs(m0).k, m.k.Cf().result))
  {
    hide ChainOk, Accounted, LimboOk, CallsOk, Calls, OwnedValues, LimboObjects, ClearArgs, Unwind, Caller, Deliver;
    var j := FunctionFrameFound(m.k);
    FrameAt(m.k, n, j);
    TopCall(m.k);
    CallerStep(m.k, n);
    var m1 := ReturnXUnwound(m, Waiting(m.k, m.k.Cf().result), n);
    UnwindOk(m, Waiting(m.k, m.k.Cf().result), n + 1);
    ValuesAbove(Unwind(m, Caller(m.k, n + 1).base).k);
  }

  /** Different calls have their registers in different places. */
  lemma FrameAt(k: Stack, n: nat, j: nat)
    requires ChainOk(k) && n < |Calls(k)| && j < |Calls(k)| && Caller(k, n).base == Caller(k, j).base
    ensures n == j
  {
    hide ChainOk, Calls, Caller;
    if n < j { DeeperBase(k, n, j); } else if j < n { DeeperBase(k, j, n); }
  }

  lemma {:induction false} DeeperBase(k: Stack, n: nat, j: nat)
    requires ChainOk(k) && n < j <= |Calls(k)|
    ensures Caller(k, j).base < Caller(k, n).base
    decreases j
  {
    hide ChainOk, Calls, Caller;
    CallerStep(k, j - 1);
    CallerCalls(k, j - 1);
    if n < j - 1 { DeeperBase(k, n, j - 1); }
  }

  /** What the VM finds when it has unwound to the call that made call `n`, which has a catcher. */
  lemma CatcherFound(m: Machine, x: int, n: nat)
    requires Inv(m) && n < |Calls(m.k)| && FindHandler(m.k, x) == Found(Caller(m.k, n)) && Caller(m.k, n).HasFrame()
    ensures n + 1 <= |Calls(m.k)| && Caller(m.k, n).Cf().rBase == Caller(m.k, n + 1).base
    ensures var m1 := Unwind(m, Caller(m.k, n + 1).base);
      && m1.k.HasFrame() && m1.k.base <= m1.k.sbase <= m1.k.sp <= |m1.k.heap|
      && Caller(m.k, n).Cf().mark.catcher.Some?
      && HandlerFits(Caller(m.k, n).Cf().mark.catcher.value, m1.k.Cf())
  {
    hide ChainOk, Accounted, LimboOk, CallsOk, Calls, OwnedValues, LimboObjects, Unwind, Caller, FindHandler,
         HandlerFits, SameBelow;
    CallerCalls(m.k, n);
    CallerStep(m.k, n);
    HandlerReached(m, x, n);
    FrameBelowSp(Unwind(m, Caller(m.k, n + 1).base).k);
  }

  /** What is in hand when an exception is thrown is still in hand when it is set. */
  lemma ThrowHand(m: Machine, x: int)
    requires InNative(m.k) ==> x != XRETURN
    requires InvWith(m, if x == XRETURN then Waiting(m.k, m.k.Cf().result) else [])
    ensures InvWith(SetException(m, Integer(x)), if x == XRETURN then Waiting(m.k, m.k.Cf().result) else [])
  {
    hide ChainOk, Accounted, LimboOk, CallsOk, Calls, OwnedValues, LimboObjects, SetException;
    var hand := if x == XRETURN then Waiting(m.k, m.k.Cf().result) else [];
    CountPush(hand, Integer(x));
    HandSame(m, hand, hand + [Integer(x)]);
    SetExceptionKeeps(m, hand, Integer(x));
  }

  // ---------------------------------------------------------------------------------------
  // Values
  // ---------------------------------------------------------------------------------------

  lemma RegisterCellOf(m: Machine, a: nat)
    requires Inv(m) && !InNative(m.k) && Temp(m, a)
    ensures m.k.base + a < |m.k.heap| && m.k.base + a != m.k.base - CFREGS && m.k.heap[m.k.base + a].Val?
  {
    RegisterCell(m, a);
  }

  /** An item that is read from a container can be received. */
  lemma ItemReceivable(m: Machine, a: nat, v: Value, c: Value, i: nat)
    requires Inv(m) && !InNative(m.k) && Temp(m, a) && Rooted(m, c)
    requires c.Ref? && c.o < |m.st| && i < |m.st[c.o].items| && v == m.st[c.o].items[i]
    ensures m.k.base + a < |m.k.heap|
    ensures var m1 := WriteReg(TakeRef(m, v), a, v);
      m1.k.HasFrame() && (v.Ref? && v.o in m1.limboed ==> v.o < |m1.st| && m1.st[v.o].rc > 0)
  {
    hide ChainOk, Accounted, LimboOk, CallsOk, Calls, OwnedValues, LimboObjects, Own;
    RegisterCellOf(m, a);
    RootedLive(m, [], c);
    ItemIsLive(m.st, Roots(m) + [], c.o, i);
    TakeRefOk(m, [], v);
    assert [] + [v] == [v];
    WriteTempOk(TakeRef(m, v), [v], a, v);
    WaitingReceivable(WriteReg(TakeRef(m, v), a, v), v);
  }

  /** No object that is yet to be created is in limbo. */
  lemma NewIsFresh(m: Machine)
    requires Inv(m)
    ensures |m.st| !in m.limboed
  {
    hide ChainOk, CallsOk, Calls, OwnedValues, LimboObjects, ItemCount;
    var o := |m.st|;
    RootsCount(m, [], o);
    assert Roots(m) + [] == Roots(m);
    assert ObjectAccounted(m.st, Roots(m) + [], o);
  }

  /** Receiving an object moves no cells around. */
  lemma ReceiveShape(m: Machine, v: Value)
    requires m.k.HasFrame()
    ensures var k := Receive(m, v).k;
      |k.heap| == |m.k.heap| && (k.base, k.sp, k.sbase, k.pc) == (m.k.base, m.k.sp, m.k.sbase, m.k.pc)
  {
  }

  /** There is room in the clean table for a variable that the compiler has announced. */
  lemma InitRoom(m: Machine, a: nat, v: Value)
    requires Inv(m) && !InNative(m.k) && Temp(m, a) && |m.k.Vars()| < CleanSize(m.k.Cf().f)
    ensures var k := WriteCell(TakeRef(m, v), m.k.base + a, v).k;
      k.HasTable() && |k.Vars()| + 1 < |k.heap[k.Cf().cleantab].bytes|
  {
    hide LinkChain, Own;
    RegisterCell(m, a);
    WriteKeepsFrame(m, m.k.base + a, v);
    assert LayoutOk(m.k);
  }

  /** The clean table has room for one more entry. */
  predicate RoomForVar(k: Stack) {
    k.HasTable() && |k.Vars()| + 1 < |k.heap[k.Cf().cleantab].bytes|
  }

  lemma InitMeans(m: Machine, a: nat, b: nat)
    requires Inv(m) && !InNative(m.k) && WellCoded(m, Init(a, b))
    ensures var j, v := m.k.base + a, m.Reg(b);
      && j < |m.k.heap| && Perform(m, Init(a, b)) == Continue(AddVar(WriteCell(TakeRef(m, v), j, v), a))
      && RoomForVar(WriteCell(TakeRef(m, v), j, v).k)
  {
    hide ChainOk, Accounted, LimboOk, CallsOk, Calls, OwnedValues, LimboObjects, Count, Roots, Rooted, KeepsOwner,
         AddVar, Own, LayoutOk;
    RegisterCellOf(m, a);
    InitRoom(m, a, m.Reg(b));
  }

  lemma UpvaluesLinked(m: Machine, n: nat)
    requires Inv(m) && !InNative(m.k) && n <= m.k.Cf().f.need
    ensures m.k.sp <= |m.k.heap| && UvLinked(m.k.heap[..m.k.sp], m.k.base, n) && UvLinked(m.k.heap, m.k.base, n)
  {
    hide ChainOk, Accounted, LimboOk, Calls, OwnedValues, LimboObjects;
    TopCall(m.k);
    UvLinkedOk(m.k, m.next, 0, n);
    UvSame(m.k.heap[..m.k.sp], m.k.heap, m.k.base, n);
  }

  /** After leaving a call that returns, the caller's arguments are there to be cleared. */
  lemma ReturnArgs(m: Machine, result: int)
    requires !InNative(m.k) && m.k.sp == m.k.sbase && InvWith(m, Waiting(m.k, result))
    ensures var m1 := CleanLimbo(CleanVars(m, 0));
      && m1.k.HasFrame() && Leave(m1).k.sbase <= Leave(m1).k.sp <= |Leave(m1).k.heap|
  {
    hide ChainOk, Accounted, LimboOk, CallsOk, Calls, OwnedValues, LimboObjects, CleanLimbo, CleanVars;
    CleanFrameOk(m, Waiting(m.k, result));
    LeaveOk(CleanLimbo(CleanVars(m, 0)), Waiting(m.k, result));
    ValuesAbove(Leave(CleanLimbo(CleanVars(m, 0))).k);
  }

  lemma ResultCell(m: Machine)
    requires Inv(m) && !InNative(m.k) && m.k.Cf().result >= 0
    ensures m.k.Cf().result < |m.k.heap|
  {
    hide ChainOk;
    ResultIsFree(m);
  }

  /** Nothing is in hand when a value has been thrown. */
  lemma ThrownHand(m: Machine, v: Value)
    requires Inv(m) && !InNative(m.k) && KeepsOwner(m, v, m.exception)
    requires v == Integer(XRETURN) ==> NothingWaiting(m.k)
    ensures var m1 := TakeRef(GiveUp(m, [m.exception]), v).(exception := v);
      InvWith(m1, if v == Integer(XRETURN) then Waiting(m.k, m.k.Cf().result) else [])
  {
    hide ChainOk, Accounted, LimboOk, CallsOk, Calls, OwnedValues, LimboObjects, KeepsOwner, Own, Release;
    RaisedOk(m, v);
    if v == Integer(XRETURN) { WaitingNothing(TakeRef(GiveUp(m, [m.exception]), v).(exception := v)); }
  }

  lemma RetryFrame(m: Machine)
    requires Inv(m) && !InNative(m.k)
    ensures m.k.HasTable() && CleanVars(m, 0).k.HasFrame() && CleanLimbo(CleanVars(m, 0)).k.HasFrame()
  {
    hide ChainOk, Accounted, LimboOk, CallsOk, Calls, OwnedValues, LimboObjects, CleanLimbo, CleanVars;
    ChainFramed(m.k);
    CleanFrameOk(m, []);
    CleanedFrame(m);
  }

  // ---------------------------------------------------------------------------------------
  // Native code
  // ---------------------------------------------------------------------------------------

  lemma NativeRoom(m: Machine)
    requires Inv(m)
    ensures m.k.base <= m.k.sbase <= m.k.sp <= |m.k.heap| && |m.k.heap| > 0
  {
    hide Accounted, LimboOk, CallsOk, Calls, LinkChain;
  }

  lemma NativeArgs(m: Machine)
    requires Inv(m) && m.k.base > 0 && m.k.HasFrame()
    ensures m.k.Below().sbase <= m.k.Below().sp <= |m.k.heap|
    ensures ClearArgs(m).k.HasFrame() && ClearArgs(m).k.Below() == m.k.Below() && m.k.sbase <= m.k.sp <= |m.k.heap|
  {
    hide LinkChain;
    FrameBelowSp(m.k);
  }

  lemma BackRoom(m: Machine)
    requires m.k.HasFrame() && m.k.Below().sbase <= m.k.Below().sp <= |m.k.heap|
    ensures BackFrom(m).k.sbase <= BackFrom(m).k.sp <= |BackFrom(m).k.heap|
  {
  }

  lemma LandingIs(m: Machine)
    ensures Landing(m, XOK) == ClearArgs(BackFrom(m))
  {
  }

  /** A native function's result on its way: written to its slot, and then received from the slot of
      the frame that is left. */
  lemma FinishResult(m: Machine, call: ActiveCall, i: nat)
    requires Inv(m) && m.k.base > 0 && m.k.HasFrame()
    requires FinishFits(m, call, XOK, i) && call in Calls(m.k) && call.cf.f.native && call.cf.f.results
    ensures var slot, v := call.cf.result, m.host[i];
      && 0 <= slot < |m.k.heap| && m.k.Cf().result >= 0
      && var m1 := WriteCell(HostLoses(m, i), slot, v);
      && WriteResult(HostLoses(m, i), slot, v) == m1
      && m1.k.HasFrame() && m1.k.Below().sbase <= m1.k.Below().sp <= |m1.k.heap|
      && RegValue(m1.k.heap, m.k.Cf().result) == Received(m, call, i)
      && InvWith(Landing(m1, XOK), [Received(m, call, i)]) && Landing(m1, XOK).k.HasFrame()
  {
    hide ChainOk, Accounted, LimboOk, CallsOk, Calls, OwnedValues, LimboObjects, Landing, LeavesNothing;
    ResultLands(m, call, i);
    NativeArgs(m);
    InHand(Landing(WriteResult(HostLoses(m, i), call.cf.result, m.host[i]), XOK), m.host[i], Received(m, call, i));
  }

  lemma StepReady(m: Machine, i: Instr)
    requires Inv(m) && CanExecute(m, i)
    ensures var m1 := Advance(m, Size(i));
      Inv(m1) && !InNative(m1.k) && m1.k.HasFrame() && WellCoded(m1, i)
    ensures Exec(m, i) == Perform(Advance(m, Size(i)), i)
  {
    hide Inv, WellCoded, Perform;
    if IsControl(i) { AdvanceControl(m, Size(i), i); } else { AdvanceValue(m, Size(i), i); }
  }
}
