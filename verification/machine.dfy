/** The state of the VM, and the steps that all instructions are made of: taking and giving up
    references, the limbo lists, the argument stack, entering and leaving calls
    (e_object.h, e_vm.c). */
module MachineState {
  import opened Values
  import opened ObjectStore
  import opened CallStack
  import opened Frames

  /** `limboed` holds the objects whose limbo link is set. `statics` are the static variables
      of the module, and `host` the references held by native code. `next` is the serial
      number of the next call. */
  datatype Machine = Machine(
    k: Stack,
    st: Store,
    limboed: set<Obj>,
    exception: Value,
    statics: seq<Value>,
    host: seq<Value>,
    next: nat)
  {
    /** The value in register `a` of the running call. */
    function Reg(a: nat): Value {
      RegValue(k.heap, k.base + a)
    }

    function Cf(): CallFrame
      requires k.HasFrame()
    {
      k.Cf()
    }
  }

  // ---------------------------------------------------------------------------------------
  // Steps
  // ---------------------------------------------------------------------------------------

  function WriteCell(m: Machine, j: nat, v: Value): Machine {
    if j < |m.k.heap| then m.(k := m.k.Write(j, v)) else m
  }

  function TakeRef(m: Machine, v: Value): Machine {
    m.(st := Own(m.st, v))
  }

  function GiveUp(m: Machine, vs: seq<Value>): Machine {
    m.(st := Release(m.st, vs))
  }

  /** `eel_o_limbo`. */
  function LimboPush(m: Machine, o: Obj): Machine {
    if m.k.HasFrame() then
      m.(k := SetLimbo(m.k, [o] + m.k.Cf().limbo), limboed := m.limboed + {o})
    else m
  }

  /** `eel_v_grab`: an object that is not in limbo yet gets there, with a reference of its own. */
  function Grab(m: Machine, v: Value): Machine {
    if v.Ref? && v.o !in m.limboed then LimboPush(TakeRef(m, v), v.o) else m
  }

  /** `eel_v_receive`: the limbo list takes over the reference that came with the value, or
      the reference is given back if the object is in limbo already. */
  function Receive(m: Machine, v: Value): Machine {
    if !v.Ref? then m
    else if v.o in m.limboed then
      if v.o < |m.st| && m.st[v.o].rc > 0 then
        m.(st := m.st[v.o := m.st[v.o].(rc := m.st[v.o].rc - 1)])
      else m
    else LimboPush(m, v.o)
  }

  /** `stack_clear`. */
  function ClearArgs(m: Machine): Machine {
    if m.k.sbase <= m.k.sp <= |m.k.heap| then
      m.(k := m.k.(sp := m.k.sbase), st := Release(m.st, ArgValues(m.k.heap, m.k.sbase, m.k.sp)))
    else m
  }

  /** `clean`. */
  function CleanVars(m: Machine, downto: nat): Machine {
    if m.k.HasTable() && downto <= |m.k.Vars()| then
      m.(k := CutClean(m.k, downto),
         st := Release(m.st, VarValues(m.k.heap, m.k.base, m.k.Vars()[downto..])))
    else m
  }

  /** `limbo_clean`. */
  function CleanLimbo(m: Machine): Machine {
    if m.k.HasFrame() then
      m.(k := SetLimbo(m.k, []),
         limboed := m.limboed - (set o | o in m.k.Cf().limbo),
         st := Release(m.st, AsRefs(m.k.Cf().limbo)))
    else m
  }

  /** Back to the caller's registers. */
  function Leave(m: Machine): Machine {
    if m.k.HasFrame() then m.(k := m.k.Below()) else m
  }

  function PushValue(m: Machine, v: Value): Machine {
    if m.k.sp <= |m.k.heap| && |m.k.heap| > 0 then m.(k := PushArg(m.k, v)) else m
  }

  /** ADDCLEAN. */
  function AddVar(m: Machine, a: nat): Machine {
    if m.k.HasTable() && |m.k.Vars()| + 1 < |m.k.heap[m.k.Cf().cleantab].bytes| then
      m.(k := AddClean(m.k, a))
    else m
  }

  /** The call frame address reached by following `n` upvalue links from `base`. */
  function UvBase(heap: seq<Cell>, base: nat, n: nat): nat
    decreases n
  {
    if n == 0 then base
    else if base >= CFREGS && base - CFREGS < |heap| && heap[base - CFREGS].Frame? then
      UvBase(heap, heap[base - CFREGS].cf.upvalues, n - 1)
    else 0
  }

  /** `call_eel`, and `call_c` up to the point where native code takes over. */
  function Enter(m: Machine, f: Function, result: int, levels: nat, mark: Mark): Machine {
    if m.k.sbase <= m.k.sp <= |m.k.heap| && |m.k.heap| > 0 then
      m.(k := PushFrame(m.k, f, result, UvBase(m.k.heap, m.k.base, levels), m.next, mark), next := m.next + 1)
    else m
  }

  // ---------------------------------------------------------------------------------------
  // The invariant
  // ---------------------------------------------------------------------------------------

  /** All references held outside containers. */
  ghost function Roots(m: Machine): seq<Value> {
    OwnedValues(m.k) + AsRefs(LimboObjects(m.k)) + Others(m)
  }

  function Others(m: Machine): seq<Value> {
    [m.exception] + m.statics + m.host
  }

  /** An object is on at most one limbo list, once, and knows whether it is. */
  ghost predicate LimboOk(m: Machine) {
    forall o: Obj :: Count(AsRefs(LimboObjects(m.k)), o) == if o in m.limboed then 1 else 0
  }

  /** Call `i` has the frame of its lexical parent among the calls below it, if it needs it. */
  ghost predicate UplinkOk(calls: seq<ActiveCall>, i: nat)
    requires i < |calls|
  {
    var cf := calls[i].cf;
    cf.f.need > 0 ==>
      exists j :: i < j < |calls| && calls[j].base == cf.upvalues && cf.f.parent == Some(calls[j].cf.f)
  }

  /** Later calls have higher numbers, and their registers further up. */
  ghost predicate CallsOrdered(calls: seq<ActiveCall>, next: nat) {
    && (forall i :: 0 <= i < |calls| ==> calls[i].cf.serial < next)
    && (forall i, j :: 0 <= i < j < |calls| ==> calls[j].cf.serial < calls[i].cf.serial)
    && (forall i, j :: 0 <= i < j < |calls| ==> calls[j].base < calls[i].base)
  }

  ghost predicate CallsOk(calls: seq<ActiveCall>, next: nat) {
    CallsOrdered(calls, next) && forall i :: 0 <= i < |calls| ==> UplinkOk(calls, i)
  }

  /** The invariant while the executing instruction holds the references `hand` on its own. */
  ghost predicate InvWith(m: Machine, hand: seq<Value>) {
    && ChainOk(m.k)
    && CallsOk(Calls(m.k), m.next)
    && LimboOk(m)
    && Accounted(m.st, Roots(m) + hand)
  }

  ghost predicate Inv(m: Machine) {
    InvWith(m, [])
  }

  /** The invariant, except for where upvalue links lead. */
  ghost predicate InvButLinks(m: Machine) {
    ChainOk(m.k) && CallsOrdered(Calls(m.k), m.next) && LimboOk(m) && Accounted(m.st, Roots(m))
  }

  /** Something outside the containers owns the object that `v` refers to. */
  ghost predicate Rooted(m: Machine, v: Value) {
    v.Ref? ==> Count(Roots(m), v.o) > 0
  }

  // ---------------------------------------------------------------------------------------
  // What each step does to the references in hand
  // ---------------------------------------------------------------------------------------

  lemma RootsCount(m: Machine, hand: seq<Value>, o: Obj)
    ensures Count(Roots(m) + hand, o)
         == Count(OwnedValues(m.k), o) + Count(AsRefs(LimboObjects(m.k)), o)
            + Count(Others(m), o) + Count(hand, o)
  {
    CountAppend(Roots(m), hand, o);
    CountAppend(OwnedValues(m.k) + AsRefs(LimboObjects(m.k)), Others(m), o);
    CountAppend(OwnedValues(m.k), AsRefs(LimboObjects(m.k)), o);
  }

  /** The machine changed outside the store, in such a way that every reference is still held
      by someone. */
  lemma Rebalance(m: Machine, hand: seq<Value>, m': Machine, hand': seq<Value>)
    requires InvWith(m, hand) && m'.st == m.st
    requires ChainOk(m'.k) && CallsOk(Calls(m'.k), m'.next) && LimboOk(m')
    requires forall o: Obj ::
      Count(OwnedValues(m'.k), o) + Count(AsRefs(LimboObjects(m'.k)), o) + Count(Others(m'), o) + Count(hand', o)
      == Count(OwnedValues(m.k), o) + Count(AsRefs(LimboObjects(m.k)), o) + Count(Others(m), o) + Count(hand, o)
    ensures InvWith(m', hand')
  {
    forall o: Obj ensures Count(Roots(m') + hand', o) == Count(Roots(m) + hand, o) {
      RootsCount(m, hand, o);
      RootsCount(m', hand', o);
    }
    AccountedSameRefs(m.st, Roots(m) + hand, Roots(m') + hand');
  }

  /** The same, when limbo lists and calls are not involved. */
  lemma RebalanceSame(m: Machine, hand: seq<Value>, m': Machine, hand': seq<Value>)
    requires InvWith(m, hand) && m' == m.(k := m'.k, exception := m'.exception, statics := m'.statics, host := m'.host)
    requires ChainOk(m'.k) && Calls(m'.k) == Calls(m.k) && LimboObjects(m'.k) == LimboObjects(m.k)
    requires forall o: Obj ::
      Count(OwnedValues(m'.k), o) + Count(Others(m'), o) + Count(hand', o)
      == Count(OwnedValues(m.k), o) + Count(Others(m), o) + Count(hand, o)
    ensures InvWith(m', hand')
  {
    hide ChainOk, CallsOk, Calls, OwnedValues, LimboObjects;
    Rebalance(m, hand, m', hand');
  }

  lemma HandSame(m: Machine, hand: seq<Value>, hand': seq<Value>)
    requires InvWith(m, hand) && SameRefs(hand, hand')
    ensures InvWith(m, hand')
  {
    hide ChainOk, Accounted, LimboOk, CallsOk, Calls, LimboObjects, OwnedValues, Count;
    RebalanceSame(m, hand, m, hand');
  }

  lemma TakeRefOk(m: Machine, hand: seq<Value>, v: Value)
    requires InvWith(m, hand) && IsLive(m.st, v)
    ensures InvWith(TakeRef(m, v), hand + [v])
    ensures Within(m.st, TakeRef(m, v).st) && Within(TakeRef(m, v).st, m.st)
  {
    OwnAccounted(m.st, Roots(m) + hand, v);
    assert Roots(m) + hand + [v] == Roots(TakeRef(m, v)) + (hand + [v]);
  }

  lemma GiveUpOk(m: Machine, hand: seq<Value>, vs: seq<Value>)
    requires InvWith(m, hand + vs)
    ensures InvWith(GiveUp(m, vs), hand)
    ensures Within(GiveUp(m, vs).st, m.st)
  {
    assert Roots(m) + (hand + vs) == Roots(m) + hand + vs;
    ReleaseAccounted(m.st, Roots(m) + hand, vs);
  }

  /** The same calls are active. */
  ghost predicate SameCalls(m: Machine, m': Machine) {
    Calls(m'.k) == Calls(m.k) && m'.next == m.next
  }

  /** Anything that is still rooted, or in hand, after giving up `vs` is alive after it. */
  lemma LiveAfterGiveUp(m: Machine, hand: seq<Value>, vs: seq<Value>, v: Value)
    requires InvWith(m, hand + vs)
    requires v.Ref? ==> Count(Roots(m) + hand, v.o) > 0
    ensures IsLive(m.st, v) && IsLive(GiveUp(m, vs).st, v)
  {
    assert Roots(m) + (hand + vs) == Roots(m) + hand + vs;
    if v.Ref? { CountPositive(Roots(m) + hand, v.o); }
    RootedSurvives(m.st, Roots(m) + hand, vs, v);
  }

  lemma RootedLive(m: Machine, hand: seq<Value>, v: Value)
    requires InvWith(m, hand) && Rooted(m, v)
    ensures IsLive(m.st, v)
  {
    if v.Ref? {
      CountAppend(Roots(m), hand, v.o);
      assert ObjectAccounted(m.st, Roots(m) + hand, v.o);
    }
  }

  /** Writing to a register that owns nothing. */
  lemma WriteFreeOk(m: Machine, hand: seq<Value>, j: nat, v: Value)
    requires InvWith(m, hand) && FreeSlot(m.k, j)
    ensures InvWith(WriteCell(m, j, v), hand)
    ensures OwnedSame(m.k, WriteCell(m, j, v).k)
    ensures SameCalls(m, WriteCell(m, j, v))
  {
    hide ChainOk, Accounted, LimboOk, CallsOk, Calls, LimboObjects, OwnedValues, Count;
    WriteOk(m.k, j, v);
    RebalanceSame(m, hand, WriteCell(m, j, v), hand);
  }

  ghost predicate OthersSame(m: Machine, m': Machine) {
    && Calls(m'.k) == Calls(m.k) && m'.next == m.next
    && LimboObjects(m'.k) == LimboObjects(m.k) && Others(m') == Others(m)
  }

  ghost predicate OwnedSame(k: Stack, k': Stack) {
    && SameRefs(OwnedValues(k), OwnedValues(k'))
    && LimboObjects(k) == LimboObjects(k') && Calls(k) == Calls(k')
  }

  /** A slot that owns its value takes over the reference in hand, and hands out the old one. */
  lemma WriteOwnedOk(m: Machine, hand: seq<Value>, j: nat, v: Value)
    requires InvWith(m, hand + [v]) && Owns(m.k, j)
    ensures j < m.k.sp <= |m.k.heap| && m.k.heap[j].Val?
    ensures InvWith(WriteCell(m, j, v), hand + [RegValue(m.k.heap, j)])
    ensures OthersSame(m, WriteCell(m, j, v))
    ensures forall o: Obj :: Count(OwnedValues(WriteCell(m, j, v).k), o) + Is(RegValue(m.k.heap, j), o)
                          == Count(OwnedValues(m.k), o) + Is(v, o)
  {
    hide ChainOk, Accounted, LimboOk, CallsOk, Calls, LimboObjects, OwnedValues, Count;
    OwnsCell(m.k, j);
    WriteOk(m.k, j, v);
    var m' := WriteCell(m, j, v);
    var was := RegValue(m.k.heap, j);
    CountPush(hand, v);
    CountPush(hand, was);
    CountPush(OwnedValues(m'.k), was);
    CountPush(OwnedValues(m.k), v);
    RebalanceSame(m, hand + [v], m', hand + [was]);
  }

  lemma PushValueOk(m: Machine, hand: seq<Value>, v: Value)
    requires InvWith(m, hand + [v])
    ensures m.k.sp <= |m.k.heap| && |m.k.heap| > 0
    ensures InvWith(PushValue(m, v), hand)
    ensures SameCalls(m, PushValue(m, v))
  {
    hide ChainOk, Accounted, LimboOk, CallsOk, Calls, LimboObjects, OwnedValues, Count;
    ValuesAbove(m.k);
    PushArgOk(m.k, v);
    CountPush(hand, v);
    CountPush(OwnedValues(m.k), v);
    RebalanceSame(m, hand + [v], PushValue(m, v), hand);
  }

  lemma ClearArgsOk'(m: Machine, hand: seq<Value>)
    requires InvWith(m, hand)
    ensures InvWith(ClearArgs(m), hand)
    ensures Within(ClearArgs(m).st, m.st)
    ensures ClearArgs(m).k == m.k.(sp := m.k.sbase) && Calls(ClearArgs(m).k) == Calls(m.k)
    ensures SameCalls(m, ClearArgs(m))
  {
    hide ChainOk, Accounted, LimboOk, CallsOk, Calls, LimboObjects, OwnedValues, Count;
    ClearArgsOk(m.k);
    var vs := ArgValues(m.k.heap, m.k.sbase, m.k.sp);
    var m' := m.(k := m.k.(sp := m.k.sbase));
    CountAppendAll(OwnedValues(m'.k), vs);
    CountAppendAll(hand, vs);
    RebalanceSame(m, hand, m', hand + vs);
    GiveUpOk(m', hand, vs);
  }

  lemma CleanVarsOk(m: Machine, hand: seq<Value>, downto: nat)
    requires InvWith(m, hand) && m.k.base > 0 && downto <= |m.k.Vars()|
    ensures InvWith(CleanVars(m, downto), hand)
    ensures Within(CleanVars(m, downto).st, m.st)
    ensures var m' := CleanVars(m, downto);
      m'.k == CutClean(m.k, downto) && m'.k.Vars() == m.k.Vars()[..downto]
      && m'.k.Cf() == m.k.Cf() && Calls(m'.k) == Calls(m.k)
    ensures SameCalls(m, CleanVars(m, downto))
  {
    hide ChainOk, Accounted, LimboOk, CallsOk, Calls, LimboObjects, OwnedValues, Count;
    CutCleanOk(m.k, downto);
    var vs := VarValues(m.k.heap, m.k.base, m.k.Vars()[downto..]);
    var m' := m.(k := CutClean(m.k, downto));
    CountAppendAll(OwnedValues(m'.k), vs);
    CountAppendAll(hand, vs);
    RebalanceSame(m, hand, m', hand + vs);
    GiveUpOk(m', hand, vs);
  }

  lemma AddVarOk(m: Machine, hand: seq<Value>, a: nat)
    requires m.k.base > 0 && m.k.HasFrame()
    requires InvWith(m, hand + [m.Reg(a)]) && |m.k.Vars()| < CleanSize(m.k.Cf().f)
    requires a < FrameSize(m.k.Cf().f) && a !in m.k.Vars()
    ensures InvWith(AddVar(m, a), hand)
    ensures AddVar(m, a).k.Vars() == m.k.Vars() + [a] && Calls(AddVar(m, a).k) == Calls(m.k)
    ensures SameCalls(m, AddVar(m, a))
  {
    hide ChainOk, Accounted, LimboOk, CallsOk, Calls, LimboObjects, OwnedValues, Count;
    AddCleanOk(m.k, a);
    CountPush(hand, m.Reg(a));
    CountPush(OwnedValues(m.k), m.Reg(a));
    RebalanceSame(m, hand + [m.Reg(a)], AddVar(m, a), hand);
  }

  lemma LimboPushOk(m: Machine, hand: seq<Value>, o: Obj)
    requires m.k.base > 0 && m.k.HasFrame() && !m.k.Cf().f.native
    requires InvWith(m, hand + [Ref(o)]) && o !in m.limboed
    ensures InvWith(LimboPush(m, o), hand)
    ensures Calls(LimboPush(m, o).k) == Calls(m.k) && LimboPush(m, o).k.Vars() == m.k.Vars()
    ensures SameCalls(m, LimboPush(m, o))
  {
    hide ChainOk, Accounted, CallsOk, Calls, OwnedValues, Count;
    var m' := LimboPush(m, o);
    LimboChanged(m.k, [o] + m.k.Cf().limbo);
    assert LimboObjects(m'.k) == [o] + LimboObjects(m.k);
    CountAsRefsCons(o, LimboObjects(m.k));
    LimboPushUnique(m, m', o);
    CountPush(hand, Ref(o));
    Rebalance(m, hand + [Ref(o)], m', hand);
  }

  lemma LimboPushUnique(m: Machine, m': Machine, o: Obj)
    requires LimboOk(m) && o !in m.limboed && m'.limboed == m.limboed + {o}
    requires forall x: Obj ::
      Count(AsRefs(LimboObjects(m'.k)), x) == Is(Ref(o), x) + Count(AsRefs(LimboObjects(m.k)), x)
    ensures LimboOk(m')
  {
    hide LimboObjects;
  }

  lemma CleanLimboOk(m: Machine, hand: seq<Value>)
    requires InvWith(m, hand) && m.k.base > 0 && m.k.HasFrame() && !m.k.Cf().f.native
    ensures InvWith(CleanLimbo(m), hand)
    ensures Within(CleanLimbo(m).st, m.st)
    ensures var m' := CleanLimbo(m);
      m'.k == SetLimbo(m.k, []) && m'.k.Vars() == m.k.Vars()
      && m'.k.Cf() == m.k.Cf().(limbo := []) && Calls(m'.k) == Calls(m.k)
    ensures SameCalls(m, CleanLimbo(m))
  {
    hide ChainOk, Accounted, CallsOk, Calls, OwnedValues, Count;
    var limbo, rest := m.k.Cf().limbo, LimboObjects(m.k.Below());
    var m' := m.(k := SetLimbo(m.k, []), limboed := m.limboed - (set o | o in limbo));
    LimboChanged(m.k, []);
    AsRefsAppend(limbo, rest);
    CountAppendAll(AsRefs(limbo), AsRefs(rest));
    CountAppendAll(hand, AsRefs(limbo));
    assert LimboObjects(m'.k) == rest;
    LimboCleanUnique(m, m', limbo, rest);
    Rebalance(m, hand, m', hand + AsRefs(limbo));
    GiveUpOk(m', hand, AsRefs(limbo));
  }

  lemma LimboCleanUnique(m: Machine, m': Machine, limbo: seq<Obj>, rest: seq<Obj>)
    requires LimboOk(m) && LimboObjects(m.k) == limbo + rest && LimboObjects(m'.k) == rest
    requires m'.limboed == m.limboed - (set o | o in limbo)
    ensures LimboOk(m')
  {
    AsRefsAppend(limbo, rest);
    forall o: Obj ensures Count(AsRefs(rest), o) == if o in m'.limboed then 1 else 0 {
      CountAppend(AsRefs(limbo), AsRefs(rest), o);
      CountAsRefs(limbo, o);
      assert Count(AsRefs(LimboObjects(m.k)), o) == if o in m.limboed then 1 else 0;
    }
  }

  /** Whether it was in limbo before or not, a received object ends up there, and the
      reference that came with it is accounted for. */
  lemma ReceiveOk(m: Machine, hand: seq<Value>, v: Value)
    requires m.k.base > 0 && m.k.HasFrame() && !m.k.Cf().f.native
    requires InvWith(m, hand + [v])
    ensures InvWith(Receive(m, v), hand)
    ensures Calls(Receive(m, v).k) == Calls(m.k) && Receive(m, v).k.Vars() == m.k.Vars()
    ensures v.Ref? ==> v.o in Receive(m, v).limboed
    ensures SameItems(Receive(m, v).st, m.st)
    ensures Within(m.st, Receive(m, v).st)
    ensures SameCalls(m, Receive(m, v))
  {
    hide ChainOk, Accounted, CallsOk, Calls, LimboOk, OwnedValues, LimboObjects, Count;
    CountPush(hand, v);
    if v.Ref? {
      if v.o in m.limboed {
        ReceiveAgain(m, hand, v);
      } else {
        LimboPushOk(m, hand, v.o);
      }
    } else {
      HandSame(m, hand + [v], hand);
    }
  }

  lemma ReceiveAgain(m: Machine, hand: seq<Value>, v: Value)
    requires InvWith(m, hand + [v]) && v.Ref? && v.o in m.limboed
    ensures v.o < |m.st| && m.st[v.o].rc > 1
    ensures InvWith(Receive(m, v), hand)
  {
    hide ChainOk, CallsOk, Calls, OwnedValues, LimboObjects;
    RootsCount(m, hand, v.o);
    CountPush(hand, v);
    assert Count(AsRefs(LimboObjects(m.k)), v.o) == 1;
    assert Roots(m) + (hand + [v]) == Roots(m) + hand + [v];
    DropAccounted(m.st, Roots(m) + hand, v.o);
    assert Roots(Receive(m, v)) == Roots(m);
  }

  lemma GrabOk(m: Machine, hand: seq<Value>, v: Value)
    requires m.k.base > 0 && m.k.HasFrame() && !m.k.Cf().f.native
    requires InvWith(m, hand) && IsLive(m.st, v)
    ensures InvWith(Grab(m, v), hand)
    ensures Calls(Grab(m, v).k) == Calls(m.k) && Grab(m, v).k.Vars() == m.k.Vars()
    ensures v.Ref? ==> v.o in Grab(m, v).limboed
    ensures SameCalls(m, Grab(m, v))
  {
    hide ChainOk, Accounted, CallsOk, Calls, LimboOk, OwnedValues, LimboObjects, Count;
    if v.Ref? && v.o !in m.limboed {
      TakeRefOk(m, hand, v);
      LimboPushOk(TakeRef(m, v), hand, v.o);
    }
  }

  lemma SetExceptionOk(m: Machine, hand: seq<Value>, v: Value)
    requires InvWith(m, hand + [v])
    ensures InvWith(m.(exception := v), hand + [m.exception])
  {
    hide ChainOk, Accounted, LimboOk, CallsOk, Calls, LimboObjects, OwnedValues, Count;
    var m' := m.(exception := v);
    CountPush(hand, v);
    CountPush(hand, m.exception);
    OthersCount(m);
    OthersCount(m');
    RebalanceSame(m, hand + [v], m', hand + [m.exception]);
  }

  lemma SetStaticOk(m: Machine, hand: seq<Value>, i: nat, v: Value)
    requires InvWith(m, hand + [v]) && i < |m.statics|
    ensures InvWith(m.(statics := m.statics[i := v]), hand + [m.statics[i]])
  {
    hide ChainOk, Accounted, LimboOk, CallsOk, Calls, LimboObjects, OwnedValues, Count;
    var m' := m.(statics := m.statics[i := v]);
    CountPush(hand, v);
    CountPush(hand, m.statics[i]);
    OthersCount(m);
    OthersCount(m');
    CountUpdateAll(m.statics, i, v);
    RebalanceSame(m, hand + [v], m', hand + [m.statics[i]]);
  }

  lemma HostTakesOk(m: Machine, hand: seq<Value>, v: Value)
    requires InvWith(m, hand + [v])
    ensures InvWith(m.(host := m.host + [v]), hand)
  {
    hide ChainOk, Accounted, LimboOk, CallsOk, Calls, LimboObjects, OwnedValues, Count;
    var m' := m.(host := m.host + [v]);
    CountPush(hand, v);
    CountPush(m.host, v);
    OthersCount(m);
    OthersCount(m');
    RebalanceSame(m, hand + [v], m', hand);
  }

  lemma HostGivesOk(m: Machine, hand: seq<Value>, i: nat)
    requires InvWith(m, hand) && i < |m.host|
    ensures InvWith(m.(host := m.host[..i] + m.host[i + 1..]), hand + [m.host[i]])
  {
    hide ChainOk, Accounted, LimboOk, CallsOk, Calls, LimboObjects, OwnedValues, Count;
    var m' := m.(host := m.host[..i] + m.host[i + 1..]);
    CountPush(hand, m.host[i]);
    forall o: Obj ensures Count(m'.host, o) + Is(m.host[i], o) == Count(m.host, o) {
      CountRemove(m.host, i, o);
    }
    OthersCount(m);
    OthersCount(m');
    RebalanceSame(m, hand, m', hand + [m.host[i]]);
  }

  lemma OthersCount(m: Machine)
    ensures forall o: Obj :: Count(Others(m), o) == Is(m.exception, o) + Count(m.statics, o) + Count(m.host, o)
  {
    forall o: Obj
      ensures Count(Others(m), o) == Is(m.exception, o) + Count(m.statics, o) + Count(m.host, o)
    {
      CountAppend([m.exception] + m.statics, m.host, o);
      CountAppend([m.exception], m.statics, o);
      assert Count([m.exception], o) == Is(m.exception, o) + Count([m.exception][1..], o);
    }
  }

  lemma ConstructOk(m: Machine, hand: seq<Value>, items: seq<Value>)
    requires InvWith(m, hand) && forall i :: 0 <= i < |items| ==> IsLive(m.st, items[i])
    ensures InvWith(m.(st := Construct(m.st, items)), hand + [Ref(|m.st|)])
  {
    hide ChainOk, CallsOk, Calls, OwnedValues, LimboObjects;
    ConstructAccounted(m.st, Roots(m) + hand, items);
    assert Roots(m) + hand + [Ref(|m.st|)] == Roots(m.(st := Construct(m.st, items))) + (hand + [Ref(|m.st|)]);
  }

  /** Storing a value in place of item `i` of a live container, or after its last item. */
  lemma SetItemsOk(m: Machine, hand: seq<Value>, c: Obj, items: seq<Value>, v: Value, was: Value)
    requires InvWith(m, hand + [v]) && c < |m.st| && m.st[c].live
    requires forall o: Obj :: Count(items, o) + Is(was, o) == Count(m.st[c].items, o) + Is(v, o)
    ensures InvWith(m.(st := m.st[c := m.st[c].(items := items)]), hand + [was])
  {
    hide ChainOk, CallsOk, Calls, OwnedValues, LimboObjects;
    var m' := m.(st := m.st[c := m.st[c].(items := items)]);
    assert Roots(m) + (hand + [v]) == Roots(m) + hand + [v];
    SetItemsAccounted(m.st, Roots(m) + hand, c, items, v, was);
    assert Roots(m') + (hand + [was]) == Roots(m) + hand + [was];
  }
}
