/** The invariant over single instructions and over whole runs. */
module Steps {
  import opened Values
  import opened ObjectStore
  import opened CallStack
  import opened Frames
  import opened MachineState
  import opened CallLinks
  import opened Instructions
  import opened LeavingCalls
  import opened Safety
  import opened ExceptionFlow

  // ---------------------------------------------------------------------------------------
  // Calls
  // ---------------------------------------------------------------------------------------

  lemma FunctionEnters(m: Machine, f: Function, result: int, levels: nat)
    requires Inv(m) && !InNative(m.k) && CalledAs(m, f, levels)
    requires result == -1 || (result >= 0 && FreeSlot(m.k, result))
    ensures CanEnter(m, f, result, if f.native then 0 else levels, PLAIN)
  {
    hide LayoutChain, LinkChain, Accounted, LimboOk, CallsOk, OwnedValues, LimboObjects, FreeSlot;
    TopCall(m.k);
    if f.need > 0 {
      var j := UpvaluesReachAncestor(m.k, m.next, 0, levels);
      assert Calls(m.k)[j].base == UvBase(m.k.heap, m.k.base, levels) && f.parent == Some(Calls(m.k)[j].cf.f);
    }
  }

  lemma CallFunctionOk(m: Machine, f: Function, result: int, levels: nat)
    requires Inv(m) && !InNative(m.k) && ((result >= 0 ==> f.results) ==> CalledAs(m, f, levels))
    requires result == -1 || (result >= 0 && FreeSlot(m.k, result))
    ensures Goes(m, CallFunction(m, f, result, levels).m)
  {
    hide ChainOk, Accounted, LimboOk, CallsOk, Calls, OwnedValues, LimboObjects, Enter, ThrowCode, FreeSlot;
    if result >= 0 && !f.results {
      ThrowCodeOk(m, XNORESULT);
    } else {
      FunctionEnters(m, f, result, levels);
      EnterOk(m, [], f, result, if f.native then 0 else levels, PLAIN);
      EnterFrame(m, f, result, if f.native then 0 else levels, PLAIN);
      var m1 := Enter(m, f, result, if f.native then 0 else levels, PLAIN);
      EvolvesPush(m, m1, ActiveCall(m1.k.base, m1.k.Cf()));
    }
  }

  /** A function that its link fits is called across no levels. */
  lemma FittingCall(m: Machine, f: Function)
    requires m.k.HasFrame() && WellFormedFunction(f) && LinkFits(m.k, f)
    ensures CalledAs(m, f, 0)
  {
  }

  lemma CallValueOk(m: Machine, callee: Value, result: int)
    requires Inv(m) && !InNative(m.k) && ValueCallFits(m, callee, result >= 0)
    requires result == -1 || (result >= 0 && FreeSlot(m.k, result))
    ensures Goes(m, CallValue(m, callee, result).m)
  {
    hide ChainOk, Accounted, LimboOk, CallsOk, Calls, OwnedValues, LimboObjects, CallFunction, ThrowCode, FreeSlot,
         CalledAs;
    match callee
    case Callable(f) =>
      var x := PassedCode(m, f);
      assert x != XRETURN;
      if x != XOK {
        ThrowCodeOk(m, x);
      } else {
        if result >= 0 ==> f.results { FittingCall(m, f); }
        CallFunctionOk(m, f, result, 0);
      }
    case Ref(_) => ThrowCodeOk(m, XNEEDCALLABLE);
    case _ => ThrowCodeOk(m, XNEEDOBJECT);
  }

  lemma EnterBlockOk(m: Machine, f: Function, handler: Option<Function>, untry: bool)
    requires Inv(m) && !InNative(m.k) && BlockFits(m, f)
    requires handler.Some? ==> HandlerFits(handler.value, m.k.Cf())
    ensures Goes(m, EnterBlock(m, f, handler, untry))
  {
    hide ChainOk, Accounted, LimboOk, CallsOk, Calls, OwnedValues, LimboObjects, Enter, BlockFits, HandlerFits;
    var mark := Mark(true, false, untry, handler);
    BlockEnters(m, f, mark);
    EnterOk(m, [], f, m.k.Cf().result, 0, mark);
    EnterFrame(m, f, m.k.Cf().result, 0, mark);
    var m1 := Enter(m, f, m.k.Cf().result, 0, mark);
    EvolvesPush(m, m1, ActiveCall(m1.k.base, m1.k.Cf()));
  }

  lemma RetryOk(m: Machine)
    requires Inv(m) && !InNative(m.k) && m.k.sp == m.k.sbase && m.k.Cf().mark.isCatcher
    ensures var m1 := Leave(CleanLimbo(CleanVars(m, 0)));
      && Goes(m, m1) && !InNative(m1.k) && Calls(m1.k) == Calls(m.k)[1..] && m1.next == m.next
      && SameBelow(m1.k, m.k.Below())
  {
    hide ChainOk, Accounted, LimboOk, CallsOk, Calls, OwnedValues, LimboObjects, Leave, CleanLimbo, CleanVars,
         SameBelow;
    CleanFrameOk(m, []);
    var m0 := CleanLimbo(CleanVars(m, 0));
    OutsideBelow(m.k, m0.k);
    LeaveOk(m0, []);
    TopCall(m.k);
    CallLinksOk(m.k, 0);
    assert Calls(m.k)[1..][0] == Calls(m.k)[1];
    EelFrame(Leave(m0), []);
    EvolvesTail(m, Leave(m0), 1);
  }

  // ---------------------------------------------------------------------------------------
  // Values
  // ---------------------------------------------------------------------------------------

  lemma PushOk(m: Machine, v: Value)
    requires Inv(m) && Rooted(m, v)
    ensures Goes(m, PushValue(TakeRef(m, v), v)) && SameCalls(m, PushValue(TakeRef(m, v), v))
  {
    hide ChainOk, Accounted, LimboOk, CallsOk, Calls, OwnedValues, LimboObjects, PushArg, Own;
    RootedLive(m, [], v);
    TakeRefOk(m, [], v);
    PushValueOk(TakeRef(m, v), [], v);
  }

  lemma InitOk(m: Machine, a: nat, v: Value)
    requires Inv(m) && !InNative(m.k) && Temp(m, a) && Rooted(m, v)
    requires |m.k.Vars()| < CleanSize(m.k.Cf().f)
    ensures Goes(m, AddVar(WriteReg(TakeRef(m, v), a, v), a))
  {
    hide ChainOk, Accounted, LimboOk, CallsOk, Calls, OwnedValues, LimboObjects, Own, WriteReg, AddVar;
    RootedLive(m, [], v);
    TakeRefOk(m, [], v);
    WriteTempOk(TakeRef(m, v), [] + [v], a, v);
    AddVarOk(WriteReg(TakeRef(m, v), a, v), [], a);
  }

  lemma SetVarOk(m: Machine, b: nat, v: Value)
    requires Inv(m) && b < |m.statics| && KeepsOwner(m, v, m.statics[b])
    ensures var m1 := TakeRef(GiveUp(m, [m.statics[b]]), v);
      Goes(m, m1.(statics := m1.statics[b := v]))
  {
    hide ChainOk, Accounted, LimboOk, CallsOk, Calls, OwnedValues, LimboObjects, Count, Release, Own;
    var was := m.statics[b];
    NilHand(m, []);
    SetStaticOk(m, [], b, Nil);
    var m1 := m.(statics := m.statics[b := Nil]);
    if v.Ref? {
      OthersCount(m);
      OthersCount(m1);
      CountUpdateAll(m.statics, b, Nil);
      RootsCount(m, [], v.o);
      RootsCount(m1, [], v.o);
      assert Roots(m) + [] == Roots(m);
    }
    LiveAfterGiveUp(m1, [], [was], v);
    GiveUpOk(m1, [], [was]);
    var m2 := GiveUp(m1, [was]);
    TakeRefOk(m2, [], v);
    var m3 := TakeRef(m2, v);
    SetStaticOk(m3, [], b, v);
    NilHand(m3.(statics := m3.statics[b := v]), []);
    assert m.statics[b := Nil][b := v] == m.statics[b := v];
  }

  /** The state in which THROW calls the scheduler. */
  lemma RaisedOk(m: Machine, v: Value)
    requires Inv(m) && !InNative(m.k) && KeepsOwner(m, v, m.exception)
    ensures Inv(TakeRef(GiveUp(m, [m.exception]), v).(exception := v))
  {
    hide ChainOk, Accounted, LimboOk, CallsOk, Calls, OwnedValues, LimboObjects, Count, Release, Own;
    var was := m.exception;
    NilHand(m, []);
    SetExceptionOk(m, [], Nil);
    var m1 := m.(exception := Nil);
    if v.Ref? {
      OthersCount(m);
      OthersCount(m1);
      RootsCount(m, [], v.o);
      RootsCount(m1, [], v.o);
      assert Roots(m) + [] == Roots(m);
    }
    LiveAfterGiveUp(m1, [], [was], v);
    GiveUpOk(m1, [], [was]);
    var m2 := GiveUp(m1, [was]);
    TakeRefOk(m2, [], v);
    var m3 := TakeRef(m2, v);
    SetExceptionOk(m3, [], v);
    NilHand(m3.(exception := v), []);
  }

  lemma ThrowOk(m: Machine, v: Value)
    requires Inv(m) && !InNative(m.k) && KeepsOwner(m, v, m.exception)
    requires v == Integer(XRETURN) ==> NothingWaiting(m.k)
    ensures Goes(m, Reschedule(TakeRef(GiveUp(m, [m.exception]), v).(exception := v)).m)
  {
    hide ChainOk, Accounted, LimboOk, CallsOk, Calls, OwnedValues, LimboObjects, Count, Release, Own, Reschedule;
    RaisedOk(m, v);
    var m1 := TakeRef(GiveUp(m, [m.exception]), v).(exception := v);
    if v == Integer(XRETURN) { WaitingNothing(m1); }
    RescheduleOk(m1);
  }

  lemma GetItemOk(m: Machine, a: nat, index: Value, container: Value)
    requires Inv(m) && !InNative(m.k) && Temp(m, a) && Rooted(m, container)
    ensures Goes(m, GetItem(m, a, index, container).m)
  {
    hide ChainOk, Accounted, LimboOk, CallsOk, Calls, OwnedValues, LimboObjects, Own, WriteReg, Receive, ThrowCode,
         Count;
    RootedLive(m, [], container);
    if container.Ref? && IndexOf(index).Some? && 0 <= IndexOf(index).value < |m.st[container.o].items| {
      var v := m.st[container.o].items[IndexOf(index).value];
      ItemIsLive(m.st, Roots(m) + [], container.o, IndexOf(index).value);
      TakeRefOk(m, [], v);
      WriteTempOk(TakeRef(m, v), [] + [v], a, v);
      ReceiveOk(WriteReg(TakeRef(m, v), a, v), [], v);
    } else {
      ThrowCodeOk(m, XWRONGINDEX);
      ThrowCodeOk(m, XCANTINDEX);
      ThrowCodeOk(m, XWRONGTYPE);
      ThrowCodeOk(m, XLOWINDEX);
      ThrowCodeOk(m, XHIGHINDEX);
    }
  }

  lemma SetItemOk(m: Machine, v: Value, index: Value, container: Value)
    requires Inv(m) && !InNative(m.k) && Rooted(m, v) && Rooted(m, container)
    ensures Goes(m, SetItem(m, v, index, container).m)
  {
    hide ChainOk, Accounted, LimboOk, CallsOk, Calls, OwnedValues, LimboObjects, StoreItem, ThrowCode, Count;
    RootedLive(m, [], container);
    if container.Ref? && IndexOf(index).Some? && 0 <= IndexOf(index).value {
      StoreItemOk(m, container, IndexOf(index).value, v);
    } else {
      ThrowCodeOk(m, XNOMETAMETHOD);
      ThrowCodeOk(m, XCANTINDEX);
      ThrowCodeOk(m, XWRONGTYPE);
      ThrowCodeOk(m, XLOWINDEX);
    }
  }

  /** Storing into a container, whether over another item or past the last one. */
  lemma StoreItemOk(m: Machine, container: Value, i: nat, v: Value)
    requires Inv(m) && Rooted(m, v) && Rooted(m, container) && container.Ref?
    requires IsLive(m.st, container)
    ensures Goes(m, StoreItem(m, container.o, i, v))
  {
    hide ChainOk, Accounted, LimboOk, CallsOk, Calls, OwnedValues, LimboObjects, Release, Own, Count, Stored;
    var c := container.o;
    var items := m.st[c].items;
    if i < |items| {
      ReplaceItemOk(m, container, i, v);
    } else {
      RootedLive(m, [], v);
      TakeRefOk(m, [], v);
      var m2 := TakeRef(m, v);
      StoredCount(items, i, v);
      SetItemsOk(m2, [], c, Stored(items, i, v), v, Nil);
      NilHand(StoreItem(m, c, i, v), []);
    }
  }

  lemma StoredCount(items: seq<Value>, i: nat, v: Value)
    requires i >= |items|
    ensures forall o: Obj :: Count(Stored(items, i, v), o) == Count(items, o) + Is(v, o)
  {
    var nils := seq(i - |items|, _ => Nil);
    CountPush(items + nils, v);
    forall o: Obj ensures Count(items + nils, o) == Count(items, o) {
      CountAppend(items, nils, o);
      CountPositive(nils, o);
    }
  }

  lemma ReplaceItemOk(m: Machine, container: Value, i: nat, v: Value)
    requires Inv(m) && Rooted(m, v) && Rooted(m, container) && container.Ref?
    requires IsLive(m.st, container) && i < |m.st[container.o].items|
    ensures Goes(m, StoreItem(m, container.o, i, v))
  {
    hide ChainOk, Accounted, LimboOk, CallsOk, Calls, OwnedValues, LimboObjects, Release, Own, Count;
    var c := container.o;
    var items := m.st[c].items;
    var was := items[i];
    NilHand(m, []);
    CountUpdateAll(items, i, Nil);
    SetItemsOk(m, [], c, items[i := Nil], Nil, was);
    var m1 := m.(st := WithItems(m.st, c, items[i := Nil]));
    assert Roots(m1) + [] == Roots(m);
    LiveAfterGiveUp(m1, [], [was], v);
    LiveAfterGiveUp(m1, [], [was], container);
    GiveUpOk(m1, [], [was]);
    var m2 := GiveUp(m1, [was]);
    TakeRefOk(m2, [], v);
    var m3 := TakeRef(m2, v);
    CountUpdateAll(items[i := Nil], i, v);
    assert items[i := Nil][i := v] == items[i := v];
    SetItemsOk(m3, [], c, items[i := v], v, Nil);
    NilHand(m3.(st := WithItems(m3.st, c, items[i := v])), []);
    ReleaseWithItems(m.st, [was], c, items[i := Nil]);
    OwnWithItems(m2.st, v, c, items[i := v], items);
    assert StoreItem(m, c, i, v) == m3.(st := WithItems(m3.st, c, items[i := v]));
  }

  lemma OwnWithItems(st: Store, v: Value, c: Obj, a: seq<Value>, b: seq<Value>)
    requires c < |st|
    ensures WithItems(Own(st, v), c, a) == WithItems(Own(WithItems(st, c, b), v), c, a)
  {
  }

  lemma NewOk(m: Machine, a: nat)
    requires Inv(m) && !InNative(m.k) && Temp(m, a)
    ensures var o := |m.st|;
      var m1 := WriteReg(m.(st := Construct(m.st, Arguments(m.k))), a, Ref(o));
      Goes(m, ClearArgs(Receive(m1, Ref(o))))
  {
    hide ChainOk, Accounted, LimboOk, CallsOk, Calls, OwnedValues, LimboObjects, Construct, Receive, ClearArgs,
         WriteReg, Arguments;
    var o := |m.st|;
    var items := Arguments(m.k);
    forall i | 0 <= i < |items| ensures IsLive(m.st, items[i]) {
      ArgumentSlot(m.k, i);
      SlotIsLive(m, m.k.sbase + i);
    }
    ConstructOk(m, [], items);
    var m0 := m.(st := Construct(m.st, items));
    WriteTempOk(m0, [] + [Ref(o)], a, Ref(o));
    var m1 := WriteReg(m0, a, Ref(o));
    ReceiveOk(m1, [], Ref(o));
    ClearArgsOk'(Receive(m1, Ref(o)), []);
  }

  lemma ArgumentSlot(k: Stack, i: nat)
    requires ChainOk(k) && i < |Arguments(k)|
    ensures Owns(k, k.sbase + i) && Arguments(k)[i] == RegValue(k.heap, k.sbase + i)
  {
    ValuesAbove(k);
    assert OwnsHere(k, k.sbase + i);
  }
}
