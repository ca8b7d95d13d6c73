/** Where exceptions go, and what RETRY does, over whole runs. */
module ExceptionTheorems {
  import opened Values
  import opened ObjectStore
  import opened CallStack
  import opened Frames
  import opened MachineState
  import opened CallLinks
  import opened Instructions
  import opened NativeCode
  import opened LeavingCalls
  import opened Unwinding
  import opened Safety
  import opened ExceptionFlow
  import opened Steps
  import opened NativeSteps
  import opened Runs
  import opened CallTheorems
  import opened CutCalls

  /** The handler that call `n` of `m` names has taken over, and register 0 of its call has the
      exception. The calls from the one that made call `n` down are untouched; everything owned
      by call `n` and the calls above it was given up, once, and nothing else. */
  ghost predicate Handled(m: Machine, n: nat, m': Machine) {
    && n + 1 < |Calls(m.k)| && Calls(m.k)[n].cf.mark.catcher.Some?
    && !InNative(m'.k)
    && m'.k.Cf().f == Calls(m.k)[n].cf.mark.catcher.value && m'.k.Cf().mark.isCatcher
    && m'.k.Cf().serial == m.next
    && (m'.k.Cf().rBase, m'.k.Cf().rPc) == (Caller(m.k, n + 1).base, Caller(m.k, n + 1).pc)
    && (m'.k.Cf().rSp, m'.k.Cf().rSbase) == (Caller(m.k, n + 1).sp, Caller(m.k, n + 1).sbase)
    && m'.k.Cf().result == Calls(m.k)[n + 1].cf.result
    && m'.Reg(0) == m.exception && m'.k.Vars() == [0] && m'.exception == Nil && m'.k.sp == m'.k.sbase
    && Calls(m'.k) == [ActiveCall(m'.k.base, m'.k.Cf())] + Calls(m.k)[n + 1..]
    && SameBelow(m'.k.Below(), Caller(m.k, n + 1))
    && m'.st == Release(m.st, CutValues(m.k, n + 1))
    && (m'.statics, m'.host) == (m.statics, m.host)
  }

  /** No handler: the VM returns to native code from call `n`, which stopped the search. */
  ghost predicate Unhandled(m: Machine, x: int, n: nat, r: Outcome) {
    && r.Exit? && r.code == x && n <= |Calls(m.k)|
    && SameBelow(r.m.k, Caller(m.k, n)) && Calls(r.m.k) == Calls(m.k)[n..]
    && r.m.st == Release(m.st, CutValues(m.k, n))
    && (r.m.exception, r.m.statics, r.m.host) == (m.exception, m.statics, m.host)
  }

  /** An exception goes to the innermost call that has a catcher, unless native code, an UNTRY
      block or the top level comes first. */
  lemma ExceptionGoes(m: Machine, x: int) returns (n: nat)
    requires Inv(m) && !InNative(m.k)
    ensures n <= |Calls(m.k)| && forall i :: 0 <= i < n ==> Passes(Calls(m.k)[i].cf, x)
    ensures n < |Calls(m.k)| ==> !Passes(Calls(m.k)[n].cf, x)
    ensures n < |Calls(m.k)| && !Stops(Calls(m.k)[n].cf) ==>
              HandleX(m, x).Continue? && Handled(m, n, HandleX(m, x).m)
    ensures n == |Calls(m.k)| || Stops(Calls(m.k)[n].cf) ==> Unhandled(m, x, n, HandleX(m, x))
    ensures Inv(HandleX(m, x).m)
  {
    hide ChainOk, Accounted, LimboOk, CallsOk, Calls, OwnedValues, LimboObjects, CallCatcher, Unwind, Caller,
         FindHandler, SameBelow, HandlerFits, WellFormedFunction, CutValues, Release, Handled;
    HandleXOk(m, x);
    n := HandlerFound(m.k, x);
    CallerCalls(m.k, n);
    if FindHandler(m.k, x).Found? {
      HandlerReached(m, x, n);
      HandledBy(m, x, n);
    } else {
      UnwindOk(m, [], n);
      UnwindReleases(m, [], n);
    }
  }

  lemma HandledBy(m: Machine, x: int, n: nat)
    requires Inv(m) && n + 1 < |Calls(m.k)| && Calls(m.k)[n].cf.mark.catcher.Some?
    requires FindHandler(m.k, x) == Found(Caller(m.k, n))
    ensures HandleX(m, x).Continue? && Handled(m, n, HandleX(m, x).m)
  {
    hide ChainOk, Accounted, LimboOk, CallsOk, Calls, OwnedValues, LimboObjects, Unwind, CallCatcher, FindHandler,
         SameBelow, HandlerFits, WellFormedFunction, CutValues, Release, Caller;
    HandlerReached(m, x, n);
    CallerStep(m.k, n);
    UnwindReleases(m, [], n + 1);
    var m1 := Unwind(m, Caller(m.k, n + 1).base);
    var handler := Calls(m.k)[n].cf.mark.catcher.value;
    CallCatcherOk(m1, handler);
    CatcherState(m1, handler);
    TopCall(m1.k);
    var m' := CallCatcher(m1, handler);
    assert Calls(m.k)[n + 1..][0] == Calls(m.k)[n + 1];
    SameBelowRegisters(m1.k, Caller(m.k, n + 1));
    SameBelowTrans(m'.k.Below(), m1.k, Caller(m.k, n + 1));
  }

  lemma SameBelowRegisters(a: Stack, b: Stack)
    requires SameBelow(a, b)
    ensures (a.base, a.pc, a.sp, a.sbase) == (b.base, b.pc, b.sp, b.sbase)
  {
  }

  /** What a catcher finds when it starts. */
  lemma CatcherState(m: Machine, handler: Function)
    requires Inv(m) && !InNative(m.k) && HandlerFits(handler, m.k.Cf())
    ensures var m' := CallCatcher(m, handler);
      && m'.k.HasFrame() && m'.k.Cf()
         == NewFrame(m.k, handler, m.k.Cf().result, m.k.base, m.next, PLAIN.(isCatcher := true))
      && m'.k.Cf().result == m.k.Cf().result
      && m'.Reg(0) == m.exception && m'.k.Vars() == [0] && m'.k.sp == m'.k.sbase
      && SameBelow(m'.k.Below(), m.k)
      && m'.st == m.st && (m'.statics, m'.host) == (m.statics, m.host)
  {
    hide ChainOk, Accounted, LimboOk, CallsOk, Calls, OwnedValues, LimboObjects, CheckArgs, PushFrame,
         WellFormedFunction, Enter, CanEnter, Owns;
    var result, mark := m.k.Cf().result, PLAIN.(isCatcher := true);
    CatcherEnters(m, handler);
    EnterOk(m, [], handler, result, 0, mark);
    EnterFrame(m, handler, result, 0, mark);
    var m1 := Enter(m, handler, result, 0, mark);
    assert m1.st == m.st && m1.statics == m.statics && m1.host == m.host;
    TopResult(m.k);
    ValuesAbove(m.k);
    CatcherCells(m1, m.exception);
    CallCatcherIs(m, handler);
  }

  lemma TopResult(k: Stack)
    requires ChainOk(k) && k.base > 0 && k.HasFrame()
    ensures k.Cf().result >= -1
  {
  }

  /** The cells that starting a catcher writes. */
  lemma CatcherCells(m1: Machine, v: Value)
    requires ChainOk(m1.k) && m1.k.base > 0 && m1.k.HasFrame() && m1.k.Vars() == []
    requires CleanSize(m1.k.Cf().f) > 0 && FrameSize(m1.k.Cf().f) > 0
    ensures var m' := AddVar(WriteReg(m1, 0, v).(exception := Nil), 0);
      && m'.k.HasFrame() && m'.k.Cf() == m1.k.Cf() && m'.Reg(0) == v && m'.k.Vars() == [0]
      && m' == m1.(k := m1.k.(heap := m'.k.heap), exception := Nil) && |m'.k.heap| == |m1.k.heap|
      && forall i :: 0 <= i < m1.k.Cf().rSp && i < |m1.k.heap| ==> m'.k.heap[i] == m1.k.heap[i]
  {
    hide LinkChain, LinksOk, DistinctVars, AddClean;
    FrameBelowSp(m1.k);
    RegisterCell(m1, 0);
    WriteKeepsFrame(m1, m1.k.base, v);
    var k2 := m1.k.Write(m1.k.base, v);
    ShapeLayout(m1.k, k2.heap);
    assert LayoutOk(k2);
    FirstVar(k2);
  }

  lemma FirstVar(k: Stack)
    requires k.base > 0 && LayoutOk(k) && k.Vars() == [] && CleanSize(k.Cf().f) > 0
    ensures k.HasTable() && |k.Vars()| + 1 < |k.heap[k.Cf().cleantab].bytes|
    ensures var k' := AddClean(k, 0);
      && k'.HasFrame() && k'.Cf() == k.Cf() && k'.Vars() == [0] && k' == k.(heap := k'.heap)
      && |k'.heap| == |k.heap| && forall i :: 0 <= i < |k.heap| && i != k.Cf().cleantab ==> k'.heap[i] == k.heap[i]
  {
    TableBytes(k.heap[k.Cf().cleantab].bytes, 0, 0);
  }

  // ---------------------------------------------------------------------------------------
  // RETRY
  // ---------------------------------------------------------------------------------------

  /** The state in which a try block starts. */
  lemma TryEnters(m: Machine, handler: Function, f: Function)
    requires Inv(m) && CanExecute(m, Try(handler, f))
    ensures var m1 := Exec(m, Try(handler, f)).m;
      && Exec(m, Try(handler, f)).Continue? && Inv(m1) && !InNative(m1.k) && m1.next == m.next + 1
      && Calls(m1.k) == [ActiveCall(m1.k.base, m1.k.Cf())] + Calls(m.k)
      && m1.k.Cf().serial == m.next && m1.k.Cf().mark == Mark(true, false, false, Some(handler))
      && m1.k.Cf().rPc == m.k.pc + TRY_SIZE && m1.k.Cf().rBase == m.k.base
      && m1.k.Cf().rSp == m.k.sp && m1.k.Cf().rSbase == m.k.sbase
  {
    hide ChainOk, Accounted, LimboOk, CallsOk, Calls, OwnedValues, LimboObjects, FreeSlot, WellFormedFunction,
         CanEnter, Owns, Count, Roots, Enter, HandlerFits, BlockFits;
    var i := Try(handler, f);
    AdvanceControl(m, Size(i), i);
    AdvanceSame(m, Size(i));
    var m0 := Advance(m, Size(i));
    var mark := Mark(true, false, false, Some(handler));
    BlockEnters(m0, f, mark);
    EnterFrame(m0, f, m0.k.Cf().result, 0, mark);
    EnterOk(m0, [], f, m0.k.Cf().result, 0, mark);
    assert !f.native by { BlockNotNative(m, f); }
  }

  lemma BlockNotNative(m: Machine, f: Function)
    requires m.k.HasFrame() && BlockFits(m, f)
    ensures !f.native
  {
  }

  /** However a try block runs, if an exception from it is handled by the catcher of its own TRY
      instruction, and however that catcher runs, when it executes RETRY then the TRY
      instruction is next, with the registers as they were when it was executed before. */
  lemma RetryRerunsTry(s: Session, handler: Function, f: Function, run: seq<Step>, mx: Machine, x: int, n: nat,
                       run2: seq<Step>)
    requires Sound(s) && Allowed(s, Op(Try(handler, f))) && AllowedRun(Execute(s, Op(Try(handler, f))), run)
    // The exception is raised in some state `mx`, and handled on behalf of the try block.
    requires var s2 := RunAll(Execute(s, Op(Try(handler, f))), run);
      Inv(mx) && !InNative(mx.k) && Calls(mx.k) == Calls(s2.m.k) && mx.next == s2.m.next
    requires n < |Calls(mx.k)| && Calls(mx.k)[n].cf.serial == s.m.next && HandleX(mx, x).Continue?
    requires Handled(mx, n, HandleX(mx, x).m)
    requires AllowedRun(Catching(RunAll(Execute(s, Op(Try(handler, f))), run), mx, x), run2)
    requires var s4 := RunAll(Catching(RunAll(Execute(s, Op(Try(handler, f))), run), mx, x), run2);
      && s4.m.k.base > 0 && s4.m.k.HasFrame() && s4.m.k.Cf().serial == mx.next && Allowed(s4, Op(Retry))
    ensures var s4 := RunAll(Catching(RunAll(Execute(s, Op(Try(handler, f))), run), mx, x), run2);
      var m5, k := Execute(s4, Op(Retry)).m, s.m.k;
      && (m5.k.base, m5.k.sp, m5.k.sbase, m5.k.pc) == (k.base, k.sp, k.sbase, k.pc)
      && Calls(m5.k) == Calls(k) && Inv(m5)
  {
    hide ChainOk, Accounted, LimboOk, CallsOk, Calls, OwnedValues, LimboObjects, RunAll, AllowedRun, Exec, HandleX,
         SameBelow, CutValues, Release, NativesActive, CanExecute, Evolves;
    StepKeepsInvariant(s, Op(Try(handler, f)));
    TryEnters(s.m, handler, f);
    var s1 := Execute(s, Op(Try(handler, f)));
    RunEvolves(s1, run);
    RunKeepsInvariant(s1, run);
    var s2 := RunAll(s1, run);
    TryStillActive(s.m, s1.m, s2.m, n);
    var s3 := Catching(s2, mx, x);
    CatchingSound(s2, mx, x);
    SameCallRunning(s3, run2);
    var s4 := RunAll(s3, run2);
    TopCall(s3.m.k);
    TopCall(s4.m.k);
    RetryRestores(s4.m);
    CallerRegisters(mx.k, n);
    assert Calls(s4.m.k)[1..] == Calls(mx.k)[n + 1..];
  }

  /** The handler for an exception that was raised in state `mx` starts. */
  function Catching(s: Session, mx: Machine, x: int): Session {
    Session(HandleX(mx, x).m, s.natives, true)
  }

  lemma CatchingSound(s: Session, mx: Machine, x: int)
    requires Sound(s) && Inv(mx) && !InNative(mx.k) && Calls(mx.k) == Calls(s.m.k)
    ensures Sound(Catching(s, mx, x))
  {
    hide ChainOk, Accounted, LimboOk, CallsOk, Calls, HandleX, Evolves;
    HandleXOk(mx, x);
  }

  /** The registers that a call returns to. */
  lemma CallerRegisters(k: Stack, n: nat)
    requires ChainOk(k) && n < |Calls(k)|
    ensures var b, cf := Caller(k, n + 1), Calls(k)[n].cf;
      (b.base, b.sp, b.sbase, b.pc) == (cf.rBase, cf.rSp, cf.rSbase, cf.rPc)
  {
    hide ChainOk, Calls;
    CallerCalls(k, n);
    CallerStep(k, n);
  }

  /** A try block that is still active has the calls below it that it was made with. */
  lemma TryStillActive(m: Machine, m1: Machine, m2: Machine, n: nat)
    requires CallsOk(Calls(m.k), m.next) && m1.next == m.next + 1 && Evolves(m1, m2)
    requires m1.k.HasFrame() && m1.k.Cf().serial == m.next
    requires Calls(m1.k) == [ActiveCall(m1.k.base, m1.k.Cf())] + Calls(m.k)
    requires n < |Calls(m2.k)| && Calls(m2.k)[n].cf.serial == m.next
    ensures Calls(m2.k)[n] == Calls(m1.k)[0] && Calls(m2.k)[n + 1..] == Calls(m.k)
  {
    hide Calls, UplinkOk;
    assert IsSuffix(Calls(m2.k)[n..], Calls(m1.k));
    NewestOnly(Calls(m1.k), Calls(m2.k)[n..], m.next);
    assert Calls(m2.k)[n..][1..] == Calls(m2.k)[n + 1..];
  }

  lemma NewestOnly(calls: seq<ActiveCall>, rest: seq<ActiveCall>, next: nat)
    requires IsSuffix(rest, calls) && rest != [] && rest[0].cf.serial == next
    requires forall i :: 0 < i < |calls| ==> calls[i].cf.serial < next
    ensures rest == calls
  {
    assert rest[0] == calls[|calls| - |rest|];
  }

  lemma RetryRestores(m: Machine)
    requires Inv(m) && CanExecute(m, Retry)
    ensures var m' := Exec(m, Retry).m; var cf := m.k.Cf();
      && Inv(m') && Calls(m'.k) == Calls(m.k)[1..]
      && (m'.k.base, m'.k.sp, m'.k.sbase) == (cf.rBase, cf.rSp, cf.rSbase)
      && m'.k.pc == if cf.rPc >= TRY_SIZE then cf.rPc - TRY_SIZE else 0
  {
    hide ChainOk, Accounted, LimboOk, CallsOk, Calls, OwnedValues, LimboObjects, Leave, CleanLimbo, CleanVars,
         SameBelow;
    AdvanceControl(m, Size(Retry), Retry);
    AdvanceSame(m, Size(Retry));
    var m0 := Advance(m, Size(Retry));
    RetryOk(m0);
    var m1 := Leave(CleanLimbo(CleanVars(m0, 0)));
    SameBelowRegisters(m1.k, m0.k.Below());
    AdvanceOk(m1, if m1.k.pc >= TRY_SIZE then m1.k.pc - TRY_SIZE else 0);
  }

  // ---------------------------------------------------------------------------------------
  // THROW
  // ---------------------------------------------------------------------------------------

  /** What the compiler guarantees of THROW, whatever the value is. */
  ghost predicate ThrowCoded(m: Machine, a: nat)
    requires m.k.HasFrame()
  {
    a < FrameSize(m.k.Cf().f) && KeepsOwner(m, m.Reg(a), m.exception)
  }

  /** THROW puts its value in the exception register, and then it depends on the code: 0 and
      XYIELD go on with the next instruction, XEND leaves the VM with all calls in place, XRETURN
      returns from the function, and every other code, and no other, starts the search for a
      handler. */
  lemma ThrowRaises(m: Machine, a: nat) returns (mx: Machine)
    requires Inv(m) && !InNative(m.k) && ThrowCoded(m, a)
    ensures Inv(mx) && !InNative(mx.k) && Calls(mx.k) == Calls(m.k) && mx.next == m.next && mx.exception == m.Reg(a)
    ensures mx.k == m.k.(pc := m.k.pc + 2) && (mx.statics, mx.host, mx.limboed) == (m.statics, m.host, m.limboed)
    ensures var x := ExceptionCode(m.Reg(a)); var r := Exec(m, Throw(a));
      && (x in {XOK, XYIELD} ==> r == Continue(mx))
      && (x == XEND ==> r == Exit(XEND, mx))
      && (x == XRETURN ==> r == ReturnX(mx))
      && (x !in {XOK, XYIELD, XEND, XRETURN} ==> r == HandleX(mx, x))
  {
    hide ChainOk, Accounted, LimboOk, CallsOk, Calls, OwnedValues, LimboObjects, HandleX, ReturnX, Own, Release,
         Count, Roots, Owns;
    AdvanceSame(m, 2);
    var m0 := Advance(m, 2);
    mx := TakeRef(GiveUp(m0, [m0.exception]), m0.Reg(a)).(exception := m0.Reg(a));
    RaisedOk(m0, m0.Reg(a));
    assert m0.Reg(a) == m.Reg(a) && mx.k == m0.k;
    assert Exec(m, Throw(a)) == Reschedule(mx);
  }

  /** Delivering an object that nobody has a reference in hand for breaks the accounting. */
  lemma DeliveredTwice(m: Machine, v: Value)
    requires Inv(m) && v.Ref?
    ensures !InNative(m.k) ==> !Inv(Receive(m, v))
    ensures !Inv(m.(host := m.host + [v]))
  {
    hide ChainOk, Accounted, LimboOk, CallsOk, Calls, OwnedValues, LimboObjects, Count, Receive;
    RefsAccounted(m, [], v.o);
    CountNone(v.o);
    var m1 := m.(host := m.host + [v]);
    CountPush(m.host, v);
    OthersCount(m);
    OthersCount(m1);
    if Inv(m1) { RefsAccounted(m1, [], v.o); }
    if !InNative(m.k) {
      PlainHand(m, [], Nil);
      assert [] + [Nil] == [Nil];
      ReceivedIff(m, Nil, v);
    }
  }

  /** The owners of an object, with the references in hand, are what its reference count says. */
  lemma RefsAccounted(m: Machine, hand: seq<Value>, o: Obj)
    requires InvWith(m, hand)
    ensures Count(OwnedValues(m.k), o) + Count(AsRefs(LimboObjects(m.k)), o) + Count(Others(m), o) + Count(hand, o)
            + ItemCount(m.st, o) == if o < |m.st| then m.st[o].rc else 0
  {
    hide ChainOk, CallsOk, Calls, OwnedValues, LimboObjects, Count;
    RootsCount(m, hand, o);
    assert ObjectAccounted(m.st, Roots(m) + hand, o);
  }

  /** What receiving an object does to the number of its owners, and to its reference count. */
  lemma ReceiveCounts(m: Machine, hand: seq<Value>, v: Value)
    requires InvWith(m, hand) && !InNative(m.k) && v.Ref?
    ensures var m' := Receive(m, v); var o := v.o;
      && |m'.st| == |m.st| && ItemCount(m'.st, o) == ItemCount(m.st, o) && Others(m') == Others(m)
      && Count(OwnedValues(m'.k), o) == Count(OwnedValues(m.k), o)
      && (o in m.limboed ==> o < |m.st| && m'.k == m.k && m'.st[o].rc == m.st[o].rc - 1)
      && (o !in m.limboed ==>
            m'.st == m.st && Count(AsRefs(LimboObjects(m'.k)), o) == Count(AsRefs(LimboObjects(m.k)), o) + 1)
  {
    hide ChainOk, Accounted, LimboOk, CallsOk, Calls, OwnedValues, LimboObjects, Count, ItemCount;
    if v.o in m.limboed {
      RefsAccounted(m, hand, v.o);
      LimboCounted(m, v.o);
      ItemCountUpdate(m.st, v.o, m.st[v.o].(rc := m.st[v.o].rc - 1), v.o);
    } else {
      LimboPushCounts(m.k, v.o);
    }
  }

  /** Receiving `w` when a reference to `v` is in hand keeps all references accounted for if and only if
      that is the same object, or none of them is an object. */
  lemma ReceivedIff(m: Machine, v: Value, w: Value)
    requires InvWith(m, [v]) && !InNative(m.k)
    ensures Inv(Receive(m, w)) <==> (v.Ref? || w.Ref? ==> v == w)
  {
    hide ChainOk, Accounted, LimboOk, CallsOk, Calls, OwnedValues, LimboObjects, Count, ItemCount;
    if !w.Ref? {
      HandIsNone(m, [v]);
    } else if v == w {
      assert [] + [v] == [v];
      ReceiveOk(m, [], v);
    } else {
      RefsAccounted(m, [v], w.o);
      ReceiveCounts(m, [v], w);
      NotCounted(v, w.o);
      if Inv(Receive(m, w)) { RefsAccounted(Receive(m, w), [], w.o); }
    }
  }

  lemma NotCounted(v: Value, o: Obj)
    ensures v != Ref(o) ==> Count([v], o) == 0
    ensures Count([], o) == 0
  {
    CountPush([], v);
    assert [] + [v] == [v];
  }

  lemma LimboCounted(m: Machine, o: Obj)
    requires LimboOk(m) && o in m.limboed
    ensures Count(AsRefs(LimboObjects(m.k)), o) == 1
  {
  }

  lemma LimboPushCounts(k: Stack, o: Obj)
    requires ChainOk(k) && k.base > 0 && k.HasFrame() && !k.Cf().f.native
    ensures var k' := SetLimbo(k, [o] + k.Cf().limbo);
      && OwnedValues(k') == OwnedValues(k)
      && Count(AsRefs(LimboObjects(k')), o) == Count(AsRefs(LimboObjects(k)), o) + 1
  {
    hide ChainOk, Calls, OwnedValues, LimboObjects, Count, SetLimbo;
    LimboChanged(k, [o] + k.Cf().limbo);
    assert LimboObjects(SetLimbo(k, [o] + k.Cf().limbo)) == [o] + LimboObjects(k);
    CountAsRefsCons(o, LimboObjects(k));
  }

  /** A return from a function, without a result having been copied, keeps all references
      accounted for if and only if no object is in the slot for the result. */
  lemma ReturnXAccounted(m: Machine)
    requires Inv(m) && !InNative(m.k)
    ensures Inv(ReturnX(m).m) <==> NothingWaiting(m.k)
  {
    hide ChainOk, Accounted, LimboOk, CallsOk, Calls, OwnedValues, LimboObjects, ReturnX, Receive;
    if NothingWaiting(m.k) {
      WaitingNothing(m);
      ReturnXOk(m);
    } else {
      var n := FunctionFrameFound(m.k);
      TopCall(m.k);
      var m1 := ReturnXUnwound(m, [], n);
      var v := RegValue(m.k.heap, m.k.Cf().result);
      assert [v] == Waiting(m1.k, m.k.Cf().result);
      DeliveredTwice(m1, v);
    }
  }

  /** So a script may throw the code XRETURN if and only if the slot for the result of the function
      that it is in, if there is one, has no object in it. */
  lemma ThrowReturnIff(m: Machine, a: nat)
    requires Inv(m) && !InNative(m.k) && ThrowCoded(m, a) && m.Reg(a) == Integer(XRETURN)
    ensures Inv(Exec(m, Throw(a)).m) <==> CanExecute(m, Throw(a))
    ensures CanExecute(m, Throw(a)) <==> NothingWaiting(m.k)
  {
    hide ChainOk, Accounted, LimboOk, CallsOk, Calls, OwnedValues, LimboObjects, ReturnX, KeepsOwner, Exec, Inv;
    var mx := ThrowRaises(m, a);
    ReturnXAccounted(mx);
  }

  /** The same goes for a native function that ends with the code XRETURN, and the EEL function that
      it returns to. */
  lemma FinishReturnIff(m: Machine, call: ActiveCall, i: nat)
    requires Inv(m) && m.k.base > 0 && m.k.HasFrame() && !InNative(m.k.Below()) && LeavesNothing(m, XRETURN)
    ensures Inv(FinishNative(m, call, XRETURN, i).m) <==> FinishFits(m, call, XRETURN, i)
    ensures FinishFits(m, call, XRETURN, i) <==> NothingWaiting(m.k.Below())
  {
    hide ChainOk, Accounted, LimboOk, CallsOk, Calls, OwnedValues, LimboObjects, Landing, ReturnX, SetException,
         LeavesNothing;
    Lands(m, XRETURN);
    var m1 := Landing(m, XRETURN);
    ReturnCodeIn(m1);
    ReturnXAccounted(SetException(m1, Integer(XRETURN)));
  }

  /** What a native function returns from the frame of an EEL function that EEL code called is
      received from that function's slot. All references stay accounted for if and only if that is
      the same object, or none of them is an object. That is not said of the case that no result is
      wanted, so that the value in the slot is disowned, and that is an object. */
  lemma FinishResultIff(m: Machine, call: ActiveCall, i: nat)
    requires Inv(m) && m.k.base > 0 && m.k.HasFrame() && LeavesNothing(m, XOK) && !InNative(m.k.Below())
    requires call in Calls(m.k) && call.cf.f.native && call.cf.f.results
    requires i < |m.host| && m.k.Cf().result >= 0
    requires call.cf.result == call.base ==> !Received(m, call, i).Ref?
    ensures Inv(FinishNative(m, call, XOK, i).m) <==> FinishFits(m, call, XOK, i)
    ensures FinishFits(m, call, XOK, i) <==>
              (m.host[i].Ref? || Received(m, call, i).Ref? ==> m.host[i] == Received(m, call, i))
  {
    hide ChainOk, Accounted, LimboOk, CallsOk, Calls, OwnedValues, LimboObjects, Landing, LeavesNothing, Received,
         WriteResult, Receive;
    ResultLands(m, call, i);
    var v, w := m.host[i], Received(m, call, i);
    var m2 := Landing(WriteResult(HostLoses(m, i), call.cf.result, v), XOK);
    if call.cf.result == call.base {
      assert GiveUp(m2, [w]) == m2 by { PlainGivenUp(m2, w); }
      HandIsNone(m2, [v]);
      assert v in [v];
    } else {
      ReceivedIff(m2, v, w);
    }
  }

  lemma PlainGivenUp(m: Machine, w: Value)
    requires !w.Ref?
    ensures GiveUp(m, [w]) == m
  {
    var more: seq<Value> := [];
    assert Disown(m.st, w) == (m.st, more);
    assert more + [w][1..] == [];
    assert Release(m.st, [w]) == Release(m.st, []);
  }

  lemma ReturnCodeIn(m: Machine)
    requires Inv(m)
    ensures var m' := SetException(m, Integer(XRETURN));
      Inv(m') && m'.k == m.k && ThrowCode(m, XRETURN) == ReturnX(m')
  {
    hide ChainOk, Accounted, LimboOk, CallsOk, Calls, OwnedValues, LimboObjects, ReturnX, Release;
    PlainHand(m, [], Integer(XRETURN));
    SetExceptionKeeps(m, [], Integer(XRETURN));
  }
}
