/** Exceptions, and the end of calls: where control goes, and that the invariant is kept. */
module ExceptionFlow {
  import opened Values
  import opened ObjectStore
  import opened CallStack
  import opened Frames
  import opened MachineState
  import opened CallLinks
  import opened Instructions
  import opened LeavingCalls
  import opened Unwinding
  import opened Safety

  /** The frame that handles an exception, and the state of the VM when it has got there. */
  lemma HandleXOk(m: Machine, x: int)
    requires Inv(m) && !InNative(m.k)
    ensures OutcomeOk(m, HandleX(m, x))
  {
    hide ChainOk, Accounted, LimboOk, CallsOk, OwnedValues, LimboObjects, CallCatcher, Unwind, Caller, FindHandler,
         SameBelow, HandlerFits, WellFormedFunction, Evolves, NativesStay, Calls;
    var n := HandlerFound(m.k, x);
    CallerCalls(m.k, n);
    if FindHandler(m.k, x).Found? {
      HandlerReached(m, x, n);
      var m1 := Unwind(m, FindHandler(m.k, x).k.Cf().rBase);
      CallCatcherOk(m1, FindHandler(m.k, x).k.Cf().mark.catcher.value);
      EvolvesTail(m, m1, n + 1);
      EvolvesTrans(m, m1, HandleX(m, x).m);
      StayTrans(m, m1, HandleX(m, x).m, n + 1);
    } else {
      UnwindOk(m, [], n);
      EvolvesTail(m, HandleX(m, x).m, n);
    }
  }

  /** When there is a handler in call `n`, unwinding arrives in the call that made call `n`. */
  lemma HandlerReached(m: Machine, x: int, n: nat)
    requires Inv(m) && n < |Calls(m.k)|
    requires FindHandler(m.k, x) == Found(Caller(m.k, n)) && Calls(m.k)[n].cf.mark.catcher.Some?
    ensures n + 1 < |Calls(m.k)|
    ensures var h := FindHandler(m.k, x).k;
      var m1 := Unwind(m, h.Cf().rBase);
      && Inv(m1) && !InNative(m1.k) && SameRest(m, m1)
      && SameBelow(m1.k, Caller(m.k, n + 1)) && Calls(m1.k) == Calls(m.k)[n + 1..]
      && h.Cf().mark.catcher == Calls(m.k)[n].cf.mark.catcher
      && HandlerFits(h.Cf().mark.catcher.value, m1.k.Cf())
  {
    hide ChainOk, Accounted, LimboOk, CallsOk, Calls, OwnedValues, LimboObjects, Unwind, FindHandler, SameBelow,
         WellFormedFunction;
    CallLinksOk(m.k, n);
    CallerCalls(m.k, n);
    CallerStep(m.k, n);
    UnwindOk(m, [], n + 1);
    var m1 := Unwind(m, Caller(m.k, n + 1).base);
    assert Calls(m.k)[n + 1..][0] == Calls(m.k)[n + 1];
    EelFrame(m1, []);
    TopCall(m1.k);
  }

  lemma {:induction false} CallerStep(k: Stack, n: nat)
    requires ChainOk(k) && n < |Calls(k)|
    ensures Caller(k, n).HasFrame() && Caller(k, n + 1) == Caller(k, n).Below()
    decreases n
  {
    hide LayoutOk, LinksOk;
    if n > 0 {
      assert LayoutChain(k) && LinkChain(k) && k.HasFrame();
      assert Calls(k) == [ActiveCall(k.base, k.Cf().(limbo := []))] + Calls(k.Below());
      CallerStep(k.Below(), n - 1);
    } else {
      BelowOk(k);
      assert Caller(k.Below(), 0) == k.Below();
    }
  }

  /** The value that waits in a result slot is in hand until it is delivered. */
  function Waiting(k: Stack, result: int): seq<Value> {
    if result >= 0 then [RegValue(k.heap, result)] else []
  }

  /** A result without an object in it needs no reference in hand. */
  lemma WaitingNothing(m: Machine)
    requires Inv(m) && m.k.HasFrame() && NothingWaiting(m.k)
    ensures InvWith(m, Waiting(m.k, m.k.Cf().result))
  {
    hide ChainOk, Accounted, LimboOk, CallsOk, Calls, LimboObjects, OwnedValues, Count;
    if m.k.Cf().result >= 0 {
      var v := RegValue(m.k.heap, m.k.Cf().result);
      PlainHand(m, [], v);
      assert [] + [v] == [v];
    }
  }

  /** Handing over the result to the call that is running now. */
  lemma DeliverOk(m: Machine, result: int)
    requires InvWith(m, Waiting(m.k, result))
    ensures OutcomeOk(m, Deliver(m, result))
    ensures SameCalls(m, Deliver(m, result).m)
  {
    hide ChainOk, Accounted, LimboOk, CallsOk, OwnedValues, LimboObjects, Receive;
    if result >= 0 {
      var v := RegValue(m.k.heap, result);
      assert Waiting(m.k, result) == [] + [v];
      if InNative(m.k) {
        HostTakesOk(m, [], v);
      } else {
        ReceiveOk(m, [], v);
        TopCall(m.k);
        EelFrame(Receive(m, v), []);
      }
    }
  }

  /** A return from inside a block, with the result already in its place. */
  lemma ReturnXOk(m: Machine)
    requires !InNative(m.k) && InvWith(m, Waiting(m.k, m.k.Cf().result))
    ensures OutcomeOk(m, ReturnX(m))
  {
    hide ChainOk, Accounted, LimboOk, CallsOk, Calls, OwnedValues, LimboObjects, Deliver, ClearArgs, Unwind, Evolves,
         NativesStay, ReturnX;
    var n := FunctionFrameFound(m.k);
    TopCall(m.k);
    var m1 := ReturnXUnwound(m, Waiting(m.k, m.k.Cf().result), n);
    DeliverOk(m1, m.k.Cf().result);
    EvolvesTail(m, ReturnX(m).m, n + 1);
  }

  /** What a return from inside a block arrives at, before the result is delivered. */
  lemma ReturnXUnwound(m: Machine, hand: seq<Value>, n: nat) returns (m1: Machine)
    requires !InNative(m.k) && InvWith(m, hand)
    requires n < |Calls(m.k)| && FunctionFrame(m.k) == Caller(m.k, n) && !Calls(m.k)[n].cf.f.native
    requires Calls(m.k)[n].cf.result == Calls(m.k)[0].cf.result
    ensures m1 == ClearArgs(Unwind(m, Caller(m.k, n + 1).base))
    ensures ReturnX(m) == Deliver(m1, m.k.Cf().result)
    ensures InvWith(m1, hand) && Calls(m1.k) == Calls(m.k)[n + 1..] && m1.next == m.next
    ensures Waiting(m1.k, m.k.Cf().result) == Waiting(m.k, m.k.Cf().result)
    ensures var c := Caller(m.k, n + 1);
      (m1.k.base, m1.k.sbase, m1.k.sp, m1.k.pc) == (c.base, c.sbase, c.sbase, c.pc)
    ensures (m1.exception, m1.statics, m1.host) == (m.exception, m.statics, m.host)
  {
    hide ChainOk, Accounted, LimboOk, CallsOk, Calls, OwnedValues, LimboObjects, ClearArgs, Unwind, Deliver;
    var result := m.k.Cf().result;
    TopCall(m.k);
    CallLinksOk(m.k, n);
    CallerStep(m.k, n);
    UnwindOk(m, hand, n + 1);
    var m0 := Unwind(m, Caller(m.k, n + 1).base);
    ClearArgsOk'(m0, hand);
    m1 := ClearArgs(m0);
    ValuesAbove(m0.k);
    ClearedRegisters(m0);
    CallerCalls(m.k, n + 1);
    if result >= 0 {
      assert FreeSlot(Caller(m.k, n + 1), result);
    }
  }

  lemma ClearedRegisters(m: Machine)
    requires m.k.sbase <= m.k.sp <= |m.k.heap|
    ensures var m' := ClearArgs(m);
      && (m'.k.base, m'.k.sbase, m'.k.sp, m'.k.pc) == (m.k.base, m.k.sbase, m.k.sbase, m.k.pc)
      && (m'.exception, m'.statics, m'.host) == (m.exception, m.statics, m.host)
  {
    hide Release;
  }

  /** The scheduler, when it is called with an exception set. A result that RETXR has copied is
      in hand if the exception is XRETURN. */
  lemma RescheduleOk(m: Machine)
    requires !InNative(m.k)
    requires InvWith(m, if m.exception == Integer(XRETURN) then Waiting(m.k, m.k.Cf().result) else [])
    ensures OutcomeOk(m, Reschedule(m))
  {
    hide ChainOk, Accounted, LimboOk, CallsOk, Calls, OwnedValues, LimboObjects, ReturnX, HandleX;
    if m.exception == Integer(XRETURN) {
      ReturnXOk(m);
    } else if ExceptionCode(m.exception) !in {XOK, XYIELD, XEND} {
      HandleXOk(m, ExceptionCode(m.exception));
    }
  }

  lemma ThrowCodeOk(m: Machine, x: int)
    requires !InNative(m.k)
    requires InvWith(m, if x == XRETURN then Waiting(m.k, m.k.Cf().result) else [])
    ensures OutcomeOk(m, ThrowCode(m, x))
  {
    hide ChainOk, Accounted, LimboOk, CallsOk, Calls, OwnedValues, LimboObjects, Reschedule, SetException;
    var hand := if x == XRETURN then Waiting(m.k, m.k.Cf().result) else [];
    CountPush(hand, Integer(x));
    HandSame(m, hand, hand + [Integer(x)]);
    SetExceptionKeeps(m, hand, Integer(x));
    assert SetException(m, Integer(x)).exception == Integer(x) by { SetExceptionValue(m, Integer(x)); }
    RescheduleOk(SetException(m, Integer(x)));
  }

  lemma SetExceptionValue(m: Machine, v: Value)
    ensures SetException(m, v).exception == v
  {
  }

  /** Copying a result to its place puts it in hand. */
  lemma CopyResultOk(m: Machine, v: Value)
    requires Inv(m) && !InNative(m.k) && Rooted(m, v)
    ensures var m' := CopyResult(m, v);
      && InvWith(m', Waiting(m'.k, m.k.Cf().result))
         && Waiting(m'.k, m.k.Cf().result) == (if m.k.Cf().result >= 0 then [v] else [])
      && !InNative(m'.k) && m'.k.Cf() == m.k.Cf() && SameCalls(m, m')
      && m'.k.sp == m.k.sp && m'.k.sbase == m.k.sbase && m'.k.base == m.k.base
      && m'.exception == m.exception
  {
    hide ChainOk, Accounted, LimboOk, CallsOk, Calls, OwnedValues, LimboObjects, Own;
    var j := m.k.Cf().result;
    if j >= 0 {
      ResultIsFree(m);
      RootedLive(m, [], v);
      TakeRefOk(m, [], v);
      var m1 := TakeRef(m, v);
      assert [] + [v] == [v];
      WriteFreeOk(m1, [v], j, v);
      WriteKeepsFrame(m, j, v);
    }
  }

  /** RETURN and RETURNR, once a result has been copied. */
  lemma ReturnWithOk(m: Machine, result: int)
    requires !InNative(m.k) && m.k.sp == m.k.sbase
    requires result == -1 || result == m.k.Cf().result
    requires InvWith(m, Waiting(m.k, result))
    ensures OutcomeOk(m, ReturnWith(m, result))
    ensures Calls(ReturnWith(m, result).m.k) == Calls(m.k)[1..] && ReturnWith(m, result).m.next == m.next
  {
    hide ChainOk, Accounted, LimboOk, CallsOk, Calls, OwnedValues, LimboObjects, Deliver, ClearArgs, Leave,
         CleanLimbo, CleanVars;
    var m1 := ReturnLeft(m, result);
    DeliverOk(m1, result);
    TopCall(m.k);
    EvolvesTail(m, ReturnWith(m, result).m, 1);
  }

  lemma HostKept(m: Machine)
    ensures ClearArgs(Leave(CleanLimbo(CleanVars(m, 0)))).host == m.host
  {
    hide Release;
  }

  /** What RETURN arrives at, before the result is delivered. */
  lemma ReturnLeft(m: Machine, result: int) returns (m1: Machine)
    requires !InNative(m.k) && m.k.sp == m.k.sbase
    requires result == -1 || result == m.k.Cf().result
    requires InvWith(m, Waiting(m.k, result))
    ensures m1 == ClearArgs(Leave(CleanLimbo(CleanVars(m, 0))))
    ensures InvWith(m1, Waiting(m1.k, result)) && Calls(m1.k) == Calls(m.k)[1..] && m1.next == m.next
    ensures Waiting(m1.k, result) == Waiting(m.k, result)
    ensures m1.k.base == m.k.Cf().rBase && m1.k.sbase == m.k.Cf().rSbase && m1.k.sp == m.k.Cf().rSbase
    ensures m1.k.pc == m.k.Cf().rPc && m1.host == m.host
  {
    hide ChainOk, Accounted, LimboOk, CallsOk, Calls, OwnedValues, LimboObjects, ClearArgs, CleanLimbo, CleanVars;
    var hand := Waiting(m.k, result);
    HostKept(m);
    CleanFrameOk(m, hand);
    var m0 := CleanLimbo(CleanVars(m, 0));
    LeaveOk(m0, hand);
    ClearArgsOk'(Leave(m0), hand);
    m1 := ClearArgs(Leave(m0));
    if result >= 0 { ResultIsFree(m); }
    OutsideBelow(m.k, m0.k);
  }
}
