/** The VM as the original has it: an object whose fields the instructions update in place
    (`EEL_vm` and `EEL_vm_private` in e_vm.c and e_vm.h). Each method does what the C function
    does, loop by loop, and its contract says which of the functions on `Machine` that comes to;
    what those functions guarantee over whole runs is proved in the other modules. */
module VirtualMachine {
  import opened Values
  import opened ObjectStore
  import opened CallStack
  import opened Frames
  import opened MachineState
  import opened Instructions
  import opened NativeCode
  import opened LeavingCalls
  import opened Safety
  import opened ExceptionFlow
  import opened CutCalls
  import opened ExceptionTheorems
  import opened NativeSteps
  import opened Runs
  import opened VmLoops

  class VM {
    var heap: seq<Cell>
    var base: nat
    var sp: nat
    var sbase: nat
    var pc: nat
    var store: Store
    var limboed: set<Obj>
    var exception: Value
    var statics: seq<Value>
    var host: seq<Value>
    var next: nat

    /** The heap and the registers. */
    function K(): Stack
      reads this
    {
      Stack(heap, base, sp, sbase, pc)
    }

    function State(): Machine
      reads this
    {
      Machine(K(), store, limboed, exception, statics, host, next)
    }

    /** `vm_init`. */
    constructor (heapsize: nat, statics: nat)
      requires heapsize > 0
      ensures State() == InitialMachine(heapsize, statics)
    {
      heap := [Val(Nil)] + seq(heapsize - 1, _ => Raw);
      base, sp, sbase, pc := 0, 1, 1, 0;
      store, limboed, exception, host, next := [], {}, Nil, [], 0;
      this.statics := seq(statics, _ => Nil);
    }

    // -------------------------------------------------------------------------------------
    // References
    // -------------------------------------------------------------------------------------

    /** `eel_v_disown_nz`, with `eel_o__dispose` and a destructor that disowns all items. */
    method Disown(v: Value)
      modifies `store
      ensures store == Release(old(store), [v])
      ensures LiveCount(store) <= LiveCount(old(store))
      decreases LiveCount(store)
    {
      hide LiveCount;
      assert [v][1..] == [];
      if v.Ref? && v.o < |store| && store[v.o].live {
        var x := store[v.o];
        LiveCountUpdate(store, v.o, ObjectStore.Disown(store, v).0[v.o]);
        if x.rc > 1 {
          store := store[v.o := x.(rc := x.rc - 1)];
        } else {
          store := store[v.o := x.(rc := 0, live := false, disposals := x.disposals + 1)];
          assert x.items == x.items[0..] == x.items + [];
          for i := 0 to |x.items|
            invariant Release(old(store), [v]) == Release(store, x.items[i..])
            invariant LiveCount(store) < LiveCount(old(store))
          {
            assert x.items[i..] == [x.items[i]] + x.items[i + 1..];
            ReleaseAppend(store, [x.items[i]], x.items[i + 1..]);
            Disown(x.items[i]);
          }
        }
      }
    }

    /** `eel_v_copy` of a strong reference: the copy owns the object too. */
    method OwnValue(v: Value)
      modifies `store
      ensures State() == TakeRef(old(State()), v)
    {
      if v.Ref? && v.o < |store| {
        store := store[v.o := store[v.o].(rc := store[v.o].rc + 1)];
      }
    }

    /** `stack_clear`. */
    method StackClear()
      requires sbase <= sp <= |heap|
      modifies `sp, `store
      ensures State() == ClearArgs(old(State()))
    {
      ghost var args := ArgValues(heap, sbase, sp);
      while sp > sbase
        invariant sbase <= sp <= |heap|
        invariant Release(store, ArgValues(heap, sbase, sp)) == Release(old(store), args)
      {
        ReleaseAppend(store, [CellValue(heap[sp - 1])], ArgValues(heap, sbase, sp - 1));
        sp := sp - 1;
        Disown(CellValue(heap[sp]));
      }
    }

    /** `clean`: the newest entries of the clean table go first. */
    method Clean(downto: nat)
      requires K().HasTable() && downto <= |K().Vars()|
      modifies `heap, `store
      ensures State() == CleanVars(old(State()), downto)
    {
      hide Release, LiveCount, VarValues;
      var ctab := heap[base - CFREGS].cf.cleantab;
      var i := heap[ctab].bytes[0];
      ghost var vars := K().Vars();
      assert vars[downto..|vars|] == vars[downto..];
      while i > downto
        invariant downto <= i <= |vars| && heap == old(heap)
        invariant Release(store, VarValues(heap, base, vars[downto..i])) ==
                  Release(old(store), VarValues(heap, base, vars[downto..]))
      {
        VarsRound(store, heap, base, vars, downto, i);
        Disown(RegValue(heap, base + heap[ctab].bytes[i]));
        i := i - 1;
      }
      VarsDone(store, heap, base, vars, downto);
      heap := heap[ctab := Table(heap[ctab].bytes[0 := downto])];
    }

    /** `eel_limbo_unlink`, applied to the first object of the limbo list. */
    method LimboUnlink() returns (o: Obj)
      requires K().HasFrame() && K().Cf().limbo != []
      modifies `heap, `limboed
      ensures o == old(K().Cf().limbo[0]) && limboed == old(limboed) - {o}
      ensures K() == SetLimbo(old(K()), old(K().Cf().limbo[1..]))
    {
      var cf := heap[base - CFREGS].cf;
      o := cf.limbo[0];
      heap := heap[base - CFREGS := Frame(cf.(limbo := cf.limbo[1..]))];
      limboed := limboed - {o};
    }

    /** `limbo_clean`. */
    method LimboClean()
      requires K().HasFrame()
      modifies `heap, `limboed, `store
      ensures State() == CleanLimbo(old(State()))
    {
      hide Release, LiveCount, SetLimbo, AllBut;
      ghost var k, limbo, n := K(), K().Cf().limbo, 0;
      LimboWhole(k);
      AllButEnds(limboed, limbo);
      LimboShorter(k, limbo, 0);
      while heap[base - CFREGS].cf.limbo != []
        invariant n <= |limbo| && K().HasFrame() && K() == SetLimbo(k, limbo[n..]) && K().Cf().limbo == limbo[n..]
        invariant limboed == AllBut(old(limboed), limbo, n)
        invariant Release(store, AsRefs(limbo[n..])) == Release(old(store), AsRefs(limbo))
        decreases |limbo| - n
      {
        LimboRound(store, limbo, n);
        LimboShorter(k, limbo, n);
        LimboShorter(k, limbo, n + 1);
        AllButNext(old(limboed), limbo, n);
        var o := LimboUnlink();
        Disown(Ref(o));
        n := n + 1;
      }
      ReleaseNothing(store);
    }

    /** `eel_o_limbo`. */
    method LimboAdd(o: Obj)
      requires K().HasFrame()
      modifies `heap, `limboed
      ensures State() == LimboPush(old(State()), o)
    {
      var cf := heap[base - CFREGS].cf;
      heap := heap[base - CFREGS := Frame(cf.(limbo := [o] + cf.limbo))];
      limboed := limboed + {o};
    }

    /** `eel_v_receive`. */
    method ReceiveValue(v: Value)
      requires K().HasFrame()
      requires v.Ref? && v.o in limboed ==> v.o < |store| && store[v.o].rc > 0
      modifies `heap, `limboed, `store
      ensures State() == Receive(old(State()), v)
    {
      if v.Ref? {
        if v.o in limboed {
          store := store[v.o := store[v.o].(rc := store[v.o].rc - 1)];
        } else {
          LimboAdd(v.o);
        }
      }
    }

    /** `eel_v_grab`. */
    method GrabValue(v: Value)
      requires K().HasFrame()
      modifies `heap, `limboed, `store
      ensures State() == Grab(old(State()), v)
    {
      if v.Ref? && v.o !in limboed {
        OwnValue(v);
        LimboAdd(v.o);
      }
    }

    // -------------------------------------------------------------------------------------
    // Frames
    // -------------------------------------------------------------------------------------

    /** `grow_heap`. */
    method GrowHeap(minsize: nat)
      requires |heap| > 0
      modifies `heap
      ensures heap == Grow(old(heap), minsize)
    {
      var size := |heap|;
      while size < minsize
        invariant |heap| <= size && GrownSize(size, minsize) == GrownSize(|heap|, minsize)
        decreases minsize - size
      {
        size := 2 * size;
      }
      heap := heap + seq(size - |heap|, _ => Raw);
    }

    /** PUSH, once the value is copied. */
    method PushCopy(v: Value)
      requires sp <= |heap| && |heap| > 0
      modifies `heap, `sp
      ensures State() == PushValue(old(State()), v)
    {
      GrowHeap(sp + 1);
      heap := heap[sp := Val(v)];
      sp := sp + 1;
    }

    /** `get_uv_base`. */
    method GetUvBase(uvlevel: nat) returns (b: nat)
      requires UvLinked(heap, base, uvlevel)
      ensures b == UvBase(heap, base, uvlevel)
    {
      b := base;
      var n := uvlevel;
      while n > 0
        invariant UvLinked(heap, b, n) && UvBase(heap, b, n) == UvBase(heap, base, uvlevel)
      {
        b := heap[b - CFREGS].cf.upvalues;
        n := n - 1;
      }
    }
  
    // -------------------------------------------------------------------------------------
    // Calls
    // -------------------------------------------------------------------------------------

    /** `push_frame`. What the callers fill in afterwards starts out as for a call that
        returns nothing. */
    method AddFrame(f: Function)
      requires base <= sbase <= sp <= |heap| && |heap| > 0
      modifies `heap, `base, `sp, `sbase
      ensures K() == PushFrame(old(K()), f, -1, old(base), next, PLAIN).(pc := pc)
    {
      hide Grow, FrameCells;
      var ctab := sp;
      var b := ctab + TableCells(CleanSize(f)) + CFREGS;
      var ncf := CallFrame(base, pc, sp, sbase, f, [], sbase, sp - sbase,
                           if f.native then b else -1, ctab, base, PLAIN, next);
      GrowHeap(b + FrameSize(f) + MINSTACK);
      var cells := FrameCells(f, ncf);
      heap := heap[..ctab] + cells + heap[ctab + |cells|..];
      base := b;
      sp := base + FrameSize(f);
      sbase := sp;
    }

    /** `call_eel`. */
    method CallEel(f: Function, result: int, levels: nat)
      requires base <= sbase <= sp <= |heap| && |heap| > 0 && !f.native
      requires UvLinked(heap[..sp], base, levels)
      modifies `heap, `base, `sp, `sbase, `pc, `next
      ensures State() == Enter(old(State()), f, result, levels, PLAIN)
    {
      hide PushFrame, Grow, FrameCells, UvLinked;
      ghost var k, ri := K(), if f.results then result else -1;
      FrameFilledIn(k, f, -1, base, result, UvBase(heap, base, levels), next, PLAIN);
      AddFrame(f);
      var cf := heap[base - CFREGS].cf;
      cf := cf.(result := if f.results then result else -1);
      if levels > 0 {
        UvOfCallee(k, heap, base, levels);
        var up := GetUvBase(levels + 1);
        cf := cf.(upvalues := up);
      }
      heap := heap[base - CFREGS := Frame(cf.(mark := PLAIN, f := f))];
      pc := 0;
      next := next + 1;
    }

    /** `call_c`, up to the point where native code takes over. */
    method CallC(f: Function, result: int)
      requires base <= sbase <= sp <= |heap| && |heap| > 0 && f.native
      modifies `heap, `base, `sp, `sbase, `next
      ensures State() == Enter(old(State()), f, result, 0, PLAIN)
    {
      hide PushFrame, Grow, FrameCells;
      FrameFilledIn(K(), f, -1, base, result, base, next, PLAIN);
      AddFrame(f);
      var cf := heap[base - CFREGS].cf;
      heap := heap[base - CFREGS := Frame(cf.(result := if result >= 0 then result else base))];
      next := next + 1;
    }

    /** `call_f`: the exception code is 0 if the call was made. */
    method CallF(f: Function, result: int, levels: nat) returns (x: int)
      requires base <= sbase <= sp <= |heap| && |heap| > 0
      requires !f.native ==> UvLinked(heap[..sp], base, levels)
      modifies `heap, `base, `sp, `sbase, `pc, `next
      ensures x == if result >= 0 && !f.results then XNORESULT else XOK
      ensures x != XOK ==> State() == old(State())
      ensures x == XOK ==> State() == Enter(old(State()), f, result, if f.native then 0 else levels, PLAIN)
    {
      if result >= 0 && !f.results {
        return XNORESULT;
      }
      if f.native {
        CallC(f, result);
      } else {
        CallEel(f, result, levels);
      }
      return XOK;
    }

    /** What TRY and UNTRY do: the flags and the catcher are set once the call is made. */
    method CallBlock(f: Function, handler: Option<Function>, untry: bool)
      requires K().HasFrame() && base <= sbase <= sp <= |heap| && !f.native
      modifies `heap, `base, `sp, `sbase, `pc, `next
      ensures State() == EnterBlock(old(State()), f, handler, untry)
    {
      hide Enter, PushFrame, Grow, FrameCells;
      var result := heap[base - CFREGS].cf.result;
      EnterMarked(State(), f, result, Mark(true, false, untry, handler));
      CallEel(f, result, 0);
      var cf := heap[base - CFREGS].cf;
      heap := heap[base - CFREGS := Frame(cf.(mark := Mark(true, false, untry, handler)))];
    }

    /** `call_catcher`, and the scheduler's entry in the new clean table. */
    method StartCatcher(handler: Function)
      requires K().HasFrame() && base <= sbase <= sp <= |heap| && HandlerFits(handler, K().Cf())
      modifies this
      ensures State() == CallCatcher(old(State()), handler)
    {
      hide Enter, PushFrame, Grow, FrameCells;
      var result := heap[base - CFREGS].cf.result;
      EnterMarked(State(), handler, result, PLAIN.(isCatcher := true));
      CatcherRoom(State(), handler, result);
      CallEel(handler, result, 0);
      heap := heap[base := Val(exception)];
      exception := Nil;
      var cf := heap[base - CFREGS].cf;
      heap := heap[base - CFREGS := Frame(cf.(mark := cf.mark.(isCatcher := true)))];
      var ctab := heap[cf.cleantab].bytes;
      ctab := ctab[0 := ctab[0] + 1];
      heap := heap[cf.cleantab := Table(ctab[ctab[0] := 0])];
    }
  
    // -------------------------------------------------------------------------------------
    // Exceptions
    // -------------------------------------------------------------------------------------

    /** Back to the caller's registers. */
    method Return()
      requires K().HasFrame()
      modifies `base, `pc, `sbase, `sp
      ensures State() == Leave(old(State()))
    {
      var cf := heap[base - CFREGS].cf;
      base := cf.rBase;
      pc := cf.rPc;
      sbase := cf.rSbase;
      sp := cf.rSp;
    }

    /** What `unwind` does before it leaves a call. */
    method CleanUp()
      requires Framed(K())
      modifies this
      ensures State() == CleanCall(old(State()))
    {
      hide ClearArgs, CleanLimbo, CleanVars;
      if !heap[base - CFREGS].cf.f.native {
        CleanedFrame(State());
        Clean(0);
        LimboClean();
      }
      StackClear();
    }

    /** `unwind`. The target is a caller of the running call, `n` calls down. */
    method UnwindTo(target: nat, ghost hand: seq<Value>, ghost n: nat)
      requires InvWith(State(), hand) && n <= |Calls(K())| && target == Caller(K(), n).base
      modifies this
      ensures State() == Unwind(old(State()), target)
    {
      hide InvWith, Calls, Caller, CleanCall, Leave, Framed;
      ghost var left: nat := n;
      while base != target
        invariant InvWith(State(), hand) && left <= |Calls(K())| && Caller(K(), left).base == target
        invariant Unwind(State(), target) == Unwind(old(State()), target)
        decreases base
      {
        UnwindRound(State(), hand, left);
        CleanedCall(State());
        CleanUp();
        Return();
        left := left - 1;
      }
    }
  
    /** The result of a call arrives: in limbo, or with the native code that called. */
    method DeliverResult(result: int) returns (exit: Option<int>)
      requires InvWith(State(), Waiting(K(), result))
      modifies this
      ensures Ended(exit, State()) == Deliver(old(State()), result)
    {
      hide ChainOk, Accounted, LimboOk, CallsOk, Calls, OwnedValues, LimboObjects, LimboPush;
      if base == 0 || !K().HasFrame() || heap[base - CFREGS].cf.f.native {
        if result >= 0 {
          host := host + [RegValue(heap, result)];
        }
        return Some(XEND);
      }
      if result >= 0 {
        var v := RegValue(heap, result);
        WaitingReceivable(State(), v);
        ReceiveValue(v);
      }
      return None;
    }

    /** The XRETURN case of `eel__scheduler`. */
    method ReturnFromBlocks() returns (exit: Option<int>)
      requires !InNative(K()) && InvWith(State(), Waiting(K(), K().Cf().result))
      modifies this
      ensures Ended(exit, State()) == ReturnX(old(State()))
    {
      hide ChainOk, Accounted, LimboOk, CallsOk, Calls, OwnedValues, LimboObjects, Deliver, Caller, Unwind, ClearArgs;
      var result := heap[base - CFREGS].cf.result;
      var b := base;
      ghost var k, n: nat := K(), 0;
      TopCall(k);
      CallerHere(k);
      while heap[b - CFREGS].cf.mark.InBlock()
        invariant k.base == b > 0 && k.heap == heap && k.HasFrame()
        invariant n < |Calls(K())| && k == Caller(K(), n) && FunctionFrame(k) == FunctionFrame(K())
        modifies {}
        decreases b
      {
        BlockStep(K(), n);
        b := heap[b - CFREGS].cf.rBase;
        k, n := k.Below(), n + 1;
      }
      b := heap[b - CFREGS].cf.rBase;
      FunctionReturns(State(), n);
      UnwindTo(b, Waiting(K(), result), n + 1);
      StackClear();
      exit := DeliverResult(result);
    }

    /** The search for a catcher in `eel__scheduler`, and the call of the catcher. */
    method FindCatcher(x: int) returns (exit: Option<int>)
      requires Inv(State())
      modifies this
      ensures Ended(exit, State()) == HandleX(old(State()), x)
    {
      hide ChainOk, Accounted, LimboOk, CallsOk, Calls, OwnedValues, LimboObjects, Caller, Unwind, CallCatcher;
      var b := base;
      ghost var k, n: nat := K(), 0;
      CallerHere(k);
      while b != 0
        invariant k.base == b && k.heap == heap && FindHandler(k, x) == FindHandler(K(), x)
        invariant n <= |Calls(K())| && k == Caller(K(), n) && State() == old(State())
        decreases b
      {
        CallStep(K(), n);
        var cf := heap[b - CFREGS].cf;
        if cf.f.native || cf.mark.untry {
          break;
        }
        if cf.mark.catcher.Some? && x != XINTERNAL {
          CatcherFound(State(), x, n);
          UnwindTo(cf.rBase, [], n + 1);
          StartCatcher(cf.mark.catcher.value);
          return None;
        }
        b := cf.rBase;
        k, n := k.Below(), n + 1;
      }
      UnwindTo(b, [], n);
      return Some(x);
    }

    /** `eel__scheduler`. */
    method Schedule() returns (exit: Option<int>)
      requires InNative(K()) ==> exception != Integer(XRETURN)
      requires InvWith(State(), if exception == Integer(XRETURN) then Waiting(K(), K().Cf().result) else [])
      modifies this
      ensures Ended(exit, State()) == Reschedule(old(State()))
    {
      hide ChainOk, Accounted, LimboOk, CallsOk, Calls, OwnedValues, LimboObjects, HandleX, ReturnX, InvWith;
      var x := match exception
        case Nil => XYIELD
        case Integer(i) => i
        case _ => XOTHER;
      if x == XOK || x == XYIELD {
        return if base == 0 || !K().HasFrame() || heap[base - CFREGS].cf.f.native then Some(XEND) else None;
      } else if x == XEND {
        return Some(XEND);
      } else if x == XRETURN {
        exit := ReturnFromBlocks();
      } else {
        exit := FindCatcher(x);
      }
    }

    /** `eel__throw` and the scheduler. */
    method Throw(x: int) returns (exit: Option<int>)
      requires InNative(K()) ==> x != XRETURN
      requires InvWith(State(), if x == XRETURN then Waiting(K(), K().Cf().result) else [])
      modifies this
      ensures Ended(exit, State()) == ThrowCode(old(State()), x)
    {
      hide InvWith, Reschedule, LiveCount, Release;
      ThrowHand(State(), x);
      Disown(exception);
      exception := Integer(x);
      exit := Schedule();
    }

    // -------------------------------------------------------------------------------------
    // Values
    // -------------------------------------------------------------------------------------

    function Reg(a: nat): Value
      reads this
    {
      RegValue(heap, base + a)
    }

    method SetReg(a: nat, v: Value)
      requires base + a < |heap|
      modifies `heap
      ensures State() == WriteReg(old(State()), a, v)
    {
      heap := heap[base + a := Val(v)];
    }

    /** `eel_v_copy` to a cell. */
    method CopyTo(j: nat, v: Value)
      requires j < |heap|
      modifies `heap, `store
      ensures State() == WriteCell(TakeRef(old(State()), v), j, v)
    {
      OwnValue(v);
      heap := heap[j := Val(v)];
    }

    /** ASSIGN and the like: the old value is disowned first. */
    method AssignTo(j: nat, v: Value)
      requires j < |heap|
      modifies `heap, `store
      ensures State() == AssignCell(old(State()), j, v)
    {
      Disown(RegValue(heap, j));
      CopyTo(j, v);
    }

    method SetStatic(b: nat, v: Value)
      requires b < |statics|
      modifies `statics, `store
      ensures State() == var m := TakeRef(GiveUp(old(State()), [old(statics[b])]), v); m.(statics := m.statics[b := v])
    {
      Disown(statics[b]);
      OwnValue(v);
      statics := statics[b := v];
    }

    /** ADDCLEAN. */
    method AddToTable(a: nat)
      requires K().HasTable() && |K().Vars()| + 1 < |heap[K().Cf().cleantab].bytes|
      modifies `heap
      ensures State() == AddVar(old(State()), a)
    {
      var ctab := heap[base - CFREGS].cf.cleantab;
      var bytes := heap[ctab].bytes;
      bytes := bytes[0 := bytes[0] + 1];
      heap := heap[ctab := Table(bytes[bytes[0] := a])];
    }

    /** INDGET. */
    method IndexGet(a: nat, index: Value, container: Value) returns (exit: Option<int>)
      requires Inv(State()) && !InNative(K()) && Temp(State(), a) && Rooted(State(), container)
      modifies this
      ensures Ended(exit, State()) == GetItem(old(State()), a, index, container)
    {
      hide ChainOk, Accounted, LimboOk, CallsOk, Calls, OwnedValues, LimboObjects, LimboPush, ThrowCode, Rooted,
           Roots, Own, Temp;
      if !container.Ref? || container.o >= |store| {
        exit := Throw(if container.Callable? then XWRONGINDEX else XCANTINDEX);
        return;
      }
      var i := IndexOf(index);
      if i.None? {
        exit := Throw(XWRONGTYPE);
      } else if i.value < 0 {
        exit := Throw(XLOWINDEX);
      } else if i.value >= |store[container.o].items| {
        exit := Throw(XHIGHINDEX);
      } else {
        var v := store[container.o].items[i.value];
        ItemReceivable(State(), a, v, container, i.value);
        CopyTo(base + a, v);
        ReceiveValue(v);
        exit := None;
      }
    }

    /** INDSET. */
    method IndexSet(v: Value, index: Value, container: Value) returns (exit: Option<int>)
      requires Inv(State()) && !InNative(K())
      modifies this
      ensures Ended(exit, State()) == SetItem(old(State()), v, index, container)
    {
      hide ChainOk, Accounted, LimboOk, CallsOk, Calls, OwnedValues, LimboObjects, ThrowCode, LiveCount, Release;
      if !container.Ref? || container.o >= |store| {
        exit := Throw(if container.Callable? then XNOMETAMETHOD else XCANTINDEX);
        return;
      }
      var i := IndexOf(index);
      if i.None? {
        exit := Throw(XWRONGTYPE);
      } else if i.value < 0 {
        exit := Throw(XLOWINDEX);
      } else {
        var c, items := container.o, store[container.o].items;
        if i.value < |items| {
          Disown(items[i.value]);
          items := items[i.value := v];
        } else {
          items := items + seq(i.value - |items|, _ => Nil) + [v];
        }
        OwnValue(v);
        store := store[c := store[c].(items := items)];
        exit := None;
      }
    }

    /** The arguments are copied, for a container that is being constructed. */
    method CopyArgs() returns (items: seq<Value>)
      requires sbase <= sp <= |heap|
      modifies `store
      ensures items == Arguments(K()) && store == OwnAll(old(store), items) && |store| == |old(store)|
    {
      hide Own;
      ghost var args := Arguments(K());
      items := [];
      for i := sbase to sp
        invariant |store| == |old(store)| && items == args[..i - sbase]
        invariant OwnAll(store, args[i - sbase..]) == OwnAll(old(store), args)
      {
        var v := CellValue(heap[i]);
        assert args[i - sbase..][0] == v && args[i - sbase..][1..] == args[i + 1 - sbase..];
        OwnValue(v);
        items := items + [v];
      }
      assert args[sp - sbase..] == [] && items == args;
    }

    /** NEW of a container: the arguments are copied into it, and it is received. */
    method NewContainer(a: nat)
      requires Inv(State()) && !InNative(K()) && Temp(State(), a)
      modifies this
      ensures var m, o := old(State()), |old(store)|;
        State() == ClearArgs(Receive(WriteReg(m.(st := Construct(m.st, Arguments(m.k))), a, Ref(o)), Ref(o)))
    {
      hide ChainOk, Accounted, LimboOk, CallsOk, Calls, OwnedValues, LimboObjects, Receive, OwnAll, Arguments,
           ClearArgs, Temp, IndexOf, StoreItem, AddVar, AssignCell, CleanVars, Grab, UvBase, GetItem, SetItem, Own;
      FrameBelowSp(K());
      RegisterCellOf(State(), a);
      NewIsFresh(State());
      var o := |store|;
      var items := CopyArgs();
      store := store + [Object(1, true, 0, items)];
      SetReg(a, Ref(o));
      ReceiveShape(State(), Ref(o));
      ReceiveValue(Ref(o));
      StackClear();
    }

    // -------------------------------------------------------------------------------------
    // Instructions
    // -------------------------------------------------------------------------------------

    method ILdi(a: nat, n: int)
      requires Ready(State(), Instructions.Ldi(a, n))
      modifies this
      ensures Continue(State()) == Perform(old(State()), Instructions.Ldi(a, n))
    {
      hide ChainOk, Accounted, LimboOk, CallsOk, Calls, OwnedValues, LimboObjects, Count, Roots, Rooted, KeepsOwner;
      RegisterCellOf(State(), a);
      SetReg(a, Integer(n));
    }

    method IMove(a: nat, b: nat)
      requires Ready(State(), Instructions.Move(a, b))
      modifies this
      ensures Continue(State()) == Perform(old(State()), Instructions.Move(a, b))
    {
      hide ChainOk, Accounted, LimboOk, CallsOk, Calls, OwnedValues, LimboObjects, Count, Roots, Rooted, KeepsOwner;
      RegisterCellOf(State(), a);
      SetReg(a, Reg(b));
    }

    method IPush(a: nat)
      requires Ready(State(), Instructions.Push(a))
      modifies this
      ensures Continue(State()) == Perform(old(State()), Instructions.Push(a))
    {
      hide ChainOk, Accounted, LimboOk, CallsOk, Calls, OwnedValues, LimboObjects, Count, Roots, Rooted, KeepsOwner,
           Owns, PushArg, Own;
      FrameBelowSp(K());
      OwnValue(Reg(a));
      PushCopy(Reg(a));
    }

    method IInit(a: nat, b: nat)
      requires Ready(State(), Instructions.Init(a, b))
      modifies this
      ensures Continue(State()) == Perform(old(State()), Instructions.Init(a, b))
    {
      hide ChainOk, Accounted, LimboOk, CallsOk, Calls, OwnedValues, LimboObjects, Count, Roots, Rooted, KeepsOwner,
           AddVar, Own, TakeRef, Perform, PerformValue;
      InitMeans(State(), a, b);
      CopyTo(base + a, Reg(b));
      AddToTable(a);
    }

    method IAssign(a: nat, b: nat)
      requires Ready(State(), Instructions.Assign(a, b))
      modifies this
      ensures Continue(State()) == Perform(old(State()), Instructions.Assign(a, b))
    {
      hide ChainOk, Accounted, LimboOk, CallsOk, Calls, OwnedValues, LimboObjects, Count, Roots, Rooted, KeepsOwner,
           AssignCell, Owns;
      VarIsOwned(State(), a);
      OwnsCell(K(), base + a);
      AssignTo(base + a, Reg(b));
    }

    method IClean(a: nat)
      requires Ready(State(), Instructions.Clean(a))
      modifies this
      ensures Continue(State()) == Perform(old(State()), Instructions.Clean(a))
    {
      hide ChainOk, Accounted, LimboOk, CallsOk, Calls, OwnedValues, LimboObjects, Count, Roots, Rooted, KeepsOwner,
           CleanVars, Owns;
      ChainFramed(K());
      Clean(a);
    }

    method IGetUval(a: nat, b: nat, c: nat)
      requires Ready(State(), Instructions.GetUval(a, b, c))
      modifies this
      ensures Continue(State()) == Perform(old(State()), Instructions.GetUval(a, b, c))
    {
      hide ChainOk, Accounted, LimboOk, CallsOk, Calls, OwnedValues, LimboObjects, Count, Roots, Rooted, KeepsOwner,
           Grab, UvBase, Owns;
      RegisterCellOf(State(), a);
      UpvaluesLinked(State(), c);
      var j := GetUvBase(c);
      var v := RegValue(heap, j + b);
      SetReg(a, v);
      GrabValue(v);
    }

    method ISetUval(a: nat, b: nat, c: nat)
      requires Ready(State(), Instructions.SetUval(a, b, c))
      modifies this
      ensures Continue(State()) == Perform(old(State()), Instructions.SetUval(a, b, c))
    {
      hide ChainOk, Accounted, LimboOk, CallsOk, Calls, OwnedValues, LimboObjects, Count, Roots, Rooted, KeepsOwner,
           AssignCell, UvBase, Owns;
      UpvaluesLinked(State(), c);
      var j := GetUvBase(c);
      OwnsCell(K(), j + b);
      AssignTo(j + b, Reg(a));
    }

    method IGetVar(a: nat, b: nat)
      requires Ready(State(), Instructions.GetVar(a, b))
      modifies this
      ensures Continue(State()) == Perform(old(State()), Instructions.GetVar(a, b))
    {
      hide ChainOk, Accounted, LimboOk, CallsOk, Calls, OwnedValues, LimboObjects, Count, Roots, Rooted, KeepsOwner,
           Grab, Owns;
      RegisterCellOf(State(), a);
      SetReg(a, statics[b]);
      GrabValue(statics[b]);
    }

    method ISetVar(a: nat, b: nat)
      requires Ready(State(), Instructions.SetVar(a, b))
      modifies this
      ensures Continue(State()) == Perform(old(State()), Instructions.SetVar(a, b))
    {
      hide InvWith, Roots, Rooted, KeepsOwner, Release, LiveCount, Owns, Own, Temp;
      SetStatic(b, Reg(a));
    }

    method IGetArgI(a: nat, b: nat) returns (exit: Option<int>)
      requires Ready(State(), Instructions.GetArgI(a, b))
      modifies this
      ensures Ended(exit, State()) == Perform(old(State()), Instructions.GetArgI(a, b))
    {
      hide ChainOk, Accounted, LimboOk, CallsOk, Calls, OwnedValues, LimboObjects, Count, Roots, Rooted, KeepsOwner,
           Grab, Owns, ThrowCode;
      RegisterCellOf(State(), a);
      var cf := heap[base - CFREGS].cf;
      if b < cf.argc {
        var v := RegValue(heap, cf.argv + b);
        SetReg(a, v);
        GrabValue(v);
        exit := None;
        return;
      }
      var arg := DefaultOf(cf.f, b);
      if arg.Some? {
        SetReg(a, Integer(arg.value));
        exit := None;
      } else {
        exit := Throw(XHIGHINDEX);
      }
    }

    method ISetArgI(a: nat, b: nat) returns (exit: Option<int>)
      requires Ready(State(), Instructions.SetArgI(a, b))
      modifies this
      ensures Ended(exit, State()) == Perform(old(State()), Instructions.SetArgI(a, b))
    {
      hide ChainOk, Accounted, LimboOk, CallsOk, Calls, OwnedValues, LimboObjects, Count, Roots, Rooted, KeepsOwner,
           AssignCell, Owns, ThrowCode;
      if b >= heap[base - CFREGS].cf.argc {
        exit := Throw(XHIGHINDEX);
      } else {
        ArgIsOwned(State(), b);
        OwnsCell(K(), heap[base - CFREGS].cf.argv + b);
        AssignTo(heap[base - CFREGS].cf.argv + b, Reg(a));
        exit := None;
      }
    }

    method IIndGet(a: nat, b: nat, c: nat) returns (exit: Option<int>)
      requires Ready(State(), Instructions.IndGet(a, b, c))
      modifies this
      ensures Ended(exit, State()) == Perform(old(State()), Instructions.IndGet(a, b, c))
    {
      hide ChainOk, Accounted, LimboOk, CallsOk, Calls, OwnedValues, LimboObjects, Count, Roots, Rooted, KeepsOwner,
           Owns, GetItem;
      exit := IndexGet(a, Reg(b), Reg(c));
    }

    method IIndSet(a: nat, b: nat, c: nat) returns (exit: Option<int>)
      requires Ready(State(), Instructions.IndSet(a, b, c))
      modifies this
      ensures Ended(exit, State()) == Perform(old(State()), Instructions.IndSet(a, b, c))
    {
      hide ChainOk, Accounted, LimboOk, CallsOk, Calls, OwnedValues, LimboObjects, Count, Roots, Rooted, KeepsOwner,
           Owns, SetItem;
      exit := IndexSet(Reg(a), Reg(b), Reg(c));
    }

    method INew(a: nat)
      requires Ready(State(), Instructions.New(a))
      modifies this
      ensures Continue(State()) == Perform(old(State()), Instructions.New(a))
    {
      hide ChainOk, Accounted, LimboOk, CallsOk, Calls, OwnedValues, LimboObjects, Count, Roots, Rooted, KeepsOwner,
           Owns, Receive, ClearArgs, Construct, Arguments;
      NewContainer(a);
    }

    /** The second half of CALL, CALLR, CCALL and CCALLR: XCHECK throws what `call_f` returns. */
    method CallOrThrow(f: Function, result: int, levels: nat) returns (exit: Option<int>)
      requires Inv(State()) && !InNative(K()) && levels <= K().Cf().f.need
      modifies this
      ensures Ended(exit, State()) == CallFunction(old(State()), f, result, levels)
    {
      hide ChainOk, Accounted, LimboOk, CallsOk, Calls, OwnedValues, LimboObjects, ThrowCode, Enter;
      FrameBelowSp(K());
      UpvaluesLinked(State(), levels);
      var x := CallF(f, result, levels);
      if x != XOK {
        exit := Throw(x);
      } else {
        exit := None;
      }
    }

    /** CALL and CALLR: `get_function` and `check_args` come first. */
    method CallRegister(callee: Value, result: int) returns (exit: Option<int>)
      requires Inv(State()) && !InNative(K())
      modifies this
      ensures Ended(exit, State()) == CallValue(old(State()), callee, result)
    {
      hide ChainOk, Accounted, LimboOk, CallsOk, Calls, OwnedValues, LimboObjects, ThrowCode, CallFunction;
      FrameBelowSp(K());
      match callee {
        case Callable(f) =>
          var x := CheckArgs(f, sp - sbase);
          if x != XOK {
            exit := Throw(x);
          } else {
            exit := CallOrThrow(f, result, 0);
          }
        case Ref(_) => exit := Throw(XNEEDCALLABLE);
        case _ => exit := Throw(XNEEDOBJECT);
      }
    }

    /** RETURN and RETURNR, once the result has been copied. */
    method ReturnTo(result: int) returns (exit: Option<int>)
      requires !InNative(K()) && sp == sbase && (result == -1 || result == K().Cf().result)
      requires InvWith(State(), Waiting(K(), result))
      modifies this
      ensures Ended(exit, State()) == ReturnWith(old(State()), result)
    {
      hide ChainOk, Accounted, LimboOk, CallsOk, Calls, OwnedValues, LimboObjects, Deliver, ClearArgs, Leave,
           CleanLimbo, CleanVars;
      ghost var m1 := ReturnLeft(State(), result);
      CleanFrameOk(State(), Waiting(K(), result));
      ReturnArgs(State(), result);
      ChainFramed(K());
      CleanedFrame(State());
      Clean(0);
      LimboClean();
      Return();
      StackClear();
      exit := DeliverResult(result);
    }

    /** RETURNR and RETXR: the result is copied to its place, if the caller wants it. */
    method CopyOut(v: Value)
      requires Inv(State()) && !InNative(K())
      modifies `heap, `store
      ensures State() == CopyResult(old(State()), v)
    {
      hide ChainOk, Accounted, LimboOk, CallsOk, Calls, OwnedValues, LimboObjects, Own;
      var ri := heap[base - CFREGS].cf.result;
      if ri >= 0 {
        ResultCell(State());
        CopyTo(ri, v);
      }
    }

    method ICall(a: nat) returns (exit: Option<int>)
      requires Ready(State(), Instructions.Call(a))
      modifies this
      ensures Ended(exit, State()) == Perform(old(State()), Instructions.Call(a))
    {
      hide ChainOk, Accounted, LimboOk, CallsOk, Calls, OwnedValues, LimboObjects, Count, Roots, Rooted, KeepsOwner,
           Owns, CallValue;
      exit := CallRegister(Reg(a), -1);
    }

    method ICallR(a: nat, b: nat) returns (exit: Option<int>)
      requires Ready(State(), Instructions.CallR(a, b))
      modifies this
      ensures Ended(exit, State()) == Perform(old(State()), Instructions.CallR(a, b))
    {
      hide ChainOk, Accounted, LimboOk, CallsOk, Calls, OwnedValues, LimboObjects, Count, Roots, Rooted, KeepsOwner,
           Owns, CallValue, Temp;
      exit := CallRegister(Reg(a), base + b);
    }

    method ICCall(levels: nat, f: Function) returns (exit: Option<int>)
      requires Ready(State(), Instructions.CCall(levels, f))
      modifies this
      ensures Ended(exit, State()) == Perform(old(State()), Instructions.CCall(levels, f))
    {
      hide ChainOk, Accounted, LimboOk, CallsOk, Calls, OwnedValues, LimboObjects, Count, Roots, Rooted, KeepsOwner,
           Owns, CallFunction;
      exit := CallOrThrow(f, -1, levels);
    }

    method ICCallR(levels: nat, b: nat, f: Function) returns (exit: Option<int>)
      requires Ready(State(), Instructions.CCallR(levels, b, f))
      modifies this
      ensures Ended(exit, State()) == Perform(old(State()), Instructions.CCallR(levels, b, f))
    {
      hide ChainOk, Accounted, LimboOk, CallsOk, Calls, OwnedValues, LimboObjects, Count, Roots, Rooted, KeepsOwner,
           Owns, CallFunction, Temp;
      exit := CallOrThrow(f, base + b, levels);
    }

    method IReturn() returns (exit: Option<int>)
      requires Ready(State(), Instructions.Return)
      modifies this
      ensures Ended(exit, State()) == Perform(old(State()), Instructions.Return)
    {
      hide ChainOk, Accounted, LimboOk, CallsOk, Calls, OwnedValues, LimboObjects, Count, Roots, Rooted, KeepsOwner,
           Owns, ReturnWith;
      exit := ReturnTo(-1);
    }

    method IReturnR(a: nat) returns (exit: Option<int>)
      requires Ready(State(), Instructions.ReturnR(a))
      modifies this
      ensures Ended(exit, State()) == Perform(old(State()), Instructions.ReturnR(a))
    {
      hide ChainOk, Accounted, LimboOk, CallsOk, Calls, OwnedValues, LimboObjects, Count, Roots, Rooted, KeepsOwner,
           Owns, ReturnWith, CopyResult;
      var ri := heap[base - CFREGS].cf.result;
      CopyResultOk(State(), Reg(a));
      TopResult(K());
      CopyOut(Reg(a));
      exit := ReturnTo(ri);
    }

    method ITry(handler: Function, f: Function)
      requires Ready(State(), Instructions.Try(handler, f))
      modifies this
      ensures Continue(State()) == Perform(old(State()), Instructions.Try(handler, f))
    {
      hide ChainOk, Accounted, LimboOk, CallsOk, Calls, OwnedValues, LimboObjects, Count, Roots, Rooted, KeepsOwner,
           Owns, EnterBlock, HandlerFits, WellFormedFunction;
      FrameBelowSp(K());
      CallBlock(f, Some(handler), false);
    }

    method IUntry(f: Function)
      requires Ready(State(), Instructions.Untry(f))
      modifies this
      ensures Continue(State()) == Perform(old(State()), Instructions.Untry(f))
    {
      hide ChainOk, Accounted, LimboOk, CallsOk, Calls, OwnedValues, LimboObjects, Count, Roots, Rooted, KeepsOwner,
           Owns, EnterBlock, WellFormedFunction;
      FrameBelowSp(K());
      CallBlock(f, None, true);
    }

    method IThrow(a: nat) returns (exit: Option<int>)
      requires Ready(State(), Instructions.Throw(a))
      modifies this
      ensures Ended(exit, State()) == Perform(old(State()), Instructions.Throw(a))
    {
      hide ChainOk, Accounted, LimboOk, CallsOk, Calls, OwnedValues, LimboObjects, Count, Roots, Rooted, KeepsOwner,
           Owns, Reschedule, Release, LiveCount, Own;
      ThrownHand(State(), Reg(a));
      Disown(exception);
      OwnValue(Reg(a));
      exception := Reg(a);
      exit := Schedule();
    }

    method IRetry()
      requires Ready(State(), Instructions.Retry)
      modifies this
      ensures Continue(State()) == Perform(old(State()), Instructions.Retry)
    {
      hide ChainOk, Accounted, LimboOk, CallsOk, Calls, OwnedValues, LimboObjects, Count, Roots, Rooted, KeepsOwner,
           Owns, CleanVars, CleanLimbo, Leave;
      RetryFrame(State());
      Clean(0);
      LimboClean();
      Return();
      pc := if pc >= TRY_SIZE then pc - TRY_SIZE else 0;
    }

    method IRetX() returns (exit: Option<int>)
      requires Ready(State(), Instructions.RetX)
      modifies this
      ensures Ended(exit, State()) == Perform(old(State()), Instructions.RetX)
    {
      hide ChainOk, Accounted, LimboOk, CallsOk, Calls, OwnedValues, LimboObjects, Count, Roots, Rooted, KeepsOwner,
           Owns, ThrowCode;
      exit := Throw(XRETURN);
    }

    method IRetXR(a: nat) returns (exit: Option<int>)
      requires Ready(State(), Instructions.RetXR(a))
      modifies this
      ensures Ended(exit, State()) == Perform(old(State()), Instructions.RetXR(a))
    {
      hide ChainOk, Accounted, LimboOk, CallsOk, Calls, OwnedValues, LimboObjects, Count, Roots, Rooted, KeepsOwner,
           Owns, ThrowCode, CopyResult;
      CopyResultOk(State(), Reg(a));
      CopyOut(Reg(a));
      exit := Throw(XRETURN);
    }

    /** One round of `eel_run`. */
    method Step(i: Instr) returns (exit: Option<int>)
      requires Inv(State()) && CanExecute(State(), i)
      modifies this
      ensures Ended(exit, State()) == Exec(old(State()), i)
      ensures Goes(old(State()), State())
    {
      hide Inv, InvWith, WellCoded, Perform, Goes, InNative, Size, CanExecute;
      InstructionOk(State(), i);
      StepReady(State(), i);
      pc := pc + Size(i);
      exit := None;
      match i {
        case Ldi(a, n) => ILdi(a, n);
        case Move(a, b) => IMove(a, b);
        case Push(a) => IPush(a);
        case Init(a, b) => IInit(a, b);
        case Assign(a, b) => IAssign(a, b);
        case Clean(a) => IClean(a);
        case GetUval(a, b, c) => IGetUval(a, b, c);
        case SetUval(a, b, c) => ISetUval(a, b, c);
        case GetVar(a, b) => IGetVar(a, b);
        case SetVar(a, b) => ISetVar(a, b);
        case GetArgI(a, b) => exit := IGetArgI(a, b);
        case SetArgI(a, b) => exit := ISetArgI(a, b);
        case IndGet(a, b, c) => exit := IIndGet(a, b, c);
        case IndSet(a, b, c) => exit := IIndSet(a, b, c);
        case New(a) => INew(a);
        case Call(a) => exit := ICall(a);
        case CallR(a, b) => exit := ICallR(a, b);
        case CCall(levels, f) => exit := ICCall(levels, f);
        case CCallR(levels, b, f) => exit := ICCallR(levels, b, f);
        case Return => exit := IReturn();
        case ReturnR(a) => exit := IReturnR(a);
        case Try(handler, f) => ITry(handler, f);
        case Untry(f) => IUntry(f);
        case Throw(a) => exit := IThrow(a);
        case Retry => IRetry();
        case RetX => exit := IRetX();
        case RetXR(a) => exit := IRetXR(a);
      }
    }

    // -------------------------------------------------------------------------------------
    // Native code
    // -------------------------------------------------------------------------------------

    /** `reset_args`. */
    method Reset()
      requires sbase <= sp <= |heap|
      modifies this
      ensures State() == ResetArgs(old(State()))
    {
      hide Release, LiveCount;
      ArgsCleared(State());
      StackClear();
      if base < |heap| {
        SetReg(0, Nil);
      }
    }

    /** `eel_call`, up to the point where EEL code runs. */
    method Invoke(f: Function) returns (exit: Option<int>)
      requires Inv(State()) && WellBehaved(State(), NativeOp.Invoke(f))
      modifies this
      ensures Ended(exit, State()) == InvokeFunction(old(State()), f)
    {
      hide ChainOk, Accounted, LimboOk, CallsOk, Calls, OwnedValues, LimboObjects, Enter, ResetArgs, Release, LiveCount,
           FreeSlot, WellFormedFunction;
      NativeRoom(State());
      var x := CheckArgs(f, sp - sbase);
      if x != XOK {
        Reset();
        return Some(x);
      }
      x := CallF(f, if Reg(0) != Nil then base else -1, 0);
      if x != XOK {
        return Some(x);
      }
      Disown(exception);
      exception := Nil;
      exit := None;
    }

    /** The registers that `call_c` restores. */
    method ReturnRegisters()
      requires K().HasFrame()
      modifies `base, `sbase, `sp
      ensures State() == BackFrom(old(State()))
    {
      var cf := heap[base - CFREGS].cf;
      base := cf.rBase;
      sbase := cf.rSbase;
      sp := cf.rSp;
    }

    /** The end of `call_c` when the native function has returned an exception code. */
    method FinishWithError(call: ActiveCall, x: int, i: nat) returns (exit: Option<int>)
      requires Inv(State()) && FinishFits(State(), call, x, i) && x != XOK
      modifies this
      ensures Ended(exit, State()) == FinishNative(old(State()), call, x, i)
    {
      hide ChainOk, Accounted, LimboOk, CallsOk, Calls, OwnedValues, LimboObjects, ClearArgs, ThrowCode, LeavesNothing,
           BackFrom;
      NativeArgs(State());
      Lands(State(), x);
      StackClear();
      BackRoom(State());
      ReturnRegisters();
      StackClear();
      if x == XRETURN { WaitingNothing(State()); }
      exit := Throw(x);
    }

    /** The end of `call_c` when the native function has put a value in its result slot. */
    method FinishWithResult(call: ActiveCall, i: nat)
      requires Inv(State()) && FinishFits(State(), call, XOK, i) && call in Calls(K())
      requires call.cf.f.native && call.cf.f.results
      modifies this
      ensures Continue(State()) == FinishNative(old(State()), call, XOK, i)
    {
      hide ChainOk, Accounted, LimboOk, CallsOk, Calls, OwnedValues, LimboObjects, Receive, ClearArgs, Release,
           LiveCount, ThrowCode, LeavesNothing, BackFrom, Landing, InvWith;
      FinishResult(State(), call, i);
      var slot, at := call.cf.result, heap[base - CFREGS].cf.result;
      heap := heap[slot := Val(host[i])];
      host := host[..i] + host[i + 1..];
      var v := RegValue(heap, at);
      LandingIs(State());
      BackRoom(State());
      ReturnRegisters();
      StackClear();
      if slot == call.base {
        Disown(v);
      } else {
        WaitingReceivable(State(), v);
        ReceiveValue(v);
      }
    }

    /** The end of `call_c`: the native function has returned `x`, and what it left in its result
        slot if that is 0. `call` stands for the local variables of `call_c`. */
    method Finish(call: ActiveCall, x: int, i: nat) returns (exit: Option<int>)
      requires Inv(State()) && FinishFits(State(), call, x, i) && call in Calls(K()) && call.cf.f.native
      modifies this
      ensures Ended(exit, State()) == FinishNative(old(State()), call, x, i)
    {
      hide ChainOk, Accounted, LimboOk, CallsOk, Calls, OwnedValues, LimboObjects, Receive, ClearArgs, Release,
           LiveCount, ThrowCode, LeavesNothing, BackFrom, Landing;
      exit := None;
      if x != XOK {
        exit := FinishWithError(call, x, i);
      } else if call.cf.f.results {
        FinishWithResult(call, i);
      } else {
        NativeArgs(State());
        LandingIs(State());
        BackRoom(State());
        ReturnRegisters();
        StackClear();
      }
    }
  }

  /** What a method that returns `exit` in the state `m` comes to. */
  function Ended(exit: Option<int>, m: Machine): Outcome {
    if exit.Some? then Exit(exit.value, m) else Continue(m)
  }

  /** The VM is about to do what instruction `i` says, having moved its program counter past it. */
  ghost predicate Ready(m: Machine, i: Instr) {
    Inv(m) && !InNative(m.k) && WellCoded(m, i)
  }
}
