/** What single instructions do to the registers, variables and arguments of the running function, and
    that they do nothing else. */
module InstructionEffects {
  import opened Values
  import opened ObjectStore
  import opened CallStack
  import opened Frames
  import opened MachineState
  import opened Instructions
  import opened LeavingCalls
  import opened Safety
  import opened Steps
  import opened NativeSteps
  import opened Runs
  import opened CallTheorems
  import opened DataFlow

  /** Register `a` has got a value, and nothing else has changed but the program counter. */
  ghost predicate OnlyRegister(m: Machine, m': Machine, a: nat, v: Value, size: nat) {
    && m.k.base + a < |m.k.heap|
    && m' == m.(k := m.k.(heap := m.k.heap[m.k.base + a := Val(v)], pc := m.k.pc + size))
    && m'.Reg(a) == v && forall b: nat :: b != a ==> m'.Reg(b) == m.Reg(b)
  }

  /** LDI and MOVE. */
  lemma RegisterLoaded(m: Machine, i: Instr)
    requires Inv(m) && CanExecute(m, i) && (i.Ldi? || i.Move?)
    ensures Exec(m, i).Continue?
    ensures i.Ldi? ==> OnlyRegister(m, Exec(m, i).m, i.a, Integer(i.i), 4)
    ensures i.Move? ==> OnlyRegister(m, Exec(m, i).m, i.a, m.Reg(i.b), 3)
  {
    hide Inv, Temp, OnlyRegister;
    RunningCell(m, i);
    if i.Ldi? {
      Loaded(m, i.a, Integer(i.i), 4);
    } else {
      Loaded(m, i.a, m.Reg(i.b), 3);
      assert Advance(m, 3).Reg(i.b) == m.Reg(i.b);
    }
  }

  lemma RunningCell(m: Machine, i: Instr)
    requires Inv(m) && CanExecute(m, i) && (i.Ldi? || i.Move?)
    ensures m.k.base + i.a < |m.k.heap|
  {
    hide ChainOk, Accounted, LimboOk, CallsOk, Calls, OwnedValues, LimboObjects;
    RegisterCell(m, i.a);
  }

  lemma Loaded(m: Machine, a: nat, v: Value, size: nat)
    requires m.k.base + a < |m.k.heap|
    ensures OnlyRegister(m, WriteReg(Advance(m, size), a, v), a, v, size)
  {
  }

  /** INIT makes a variable of a register: it gets the value, and is the newest variable. All other
      variables and registers are as they were. */
  lemma VariableInitialized(m: Machine, a: nat, b: nat)
    requires Inv(m) && CanExecute(m, Init(a, b))
    ensures Exec(m, Init(a, b)).Continue?
    ensures var m' := Exec(m, Init(a, b)).m;
      && m'.k.Vars() == m.k.Vars() + [a] && m'.Reg(a) == m.Reg(b) && m'.k.pc == m.k.pc + 3
      && (m'.k.base, m'.k.sbase, m'.k.sp) == (m.k.base, m.k.sbase, m.k.sp) && |m'.k.heap| == |m.k.heap|
      && (forall j: nat :: j < |m.k.heap| && j != m.k.base + a && j != m.k.Cf().cleantab ==>
            m'.k.heap[j] == m.k.heap[j])
      && m.k.Cf().cleantab < m.k.base && Calls(m'.k) == Calls(m.k)
  {
    hide ChainOk, Accounted, LimboOk, CallsOk, Calls, OwnedValues, LimboObjects, AddVar, WriteReg, TakeRef, Rooted;
    AdvanceSame(m, 3);
    var m0 := Advance(m, 3);
    assert Exec(m, Init(a, b)) == Continue(AddVar(WriteReg(TakeRef(m0, m0.Reg(b)), a, m0.Reg(b)), a));
    NewVariable(m0, a, m0.Reg(b));
  }

  lemma NewVariable(m: Machine, a: nat, v: Value)
    requires Inv(m) && !InNative(m.k) && Temp(m, a) && Rooted(m, v) && |m.k.Vars()| < CleanSize(m.k.Cf().f)
    ensures var m' := AddVar(WriteReg(TakeRef(m, v), a, v), a);
      && m'.k.Vars() == m.k.Vars() + [a] && m'.Reg(a) == v && Calls(m'.k) == Calls(m.k)
      && m'.k == m.k.(heap := m'.k.heap) && |m'.k.heap| == |m.k.heap| && m.k.Cf().cleantab < m.k.base
      && (forall j: nat :: j < |m.k.heap| && j != m.k.base + a && j != m.k.Cf().cleantab ==>
            m'.k.heap[j] == m.k.heap[j])
  {
    hide ChainOk, Accounted, LimboOk, CallsOk, Calls, OwnedValues, LimboObjects, Own, AddClean, Rooted, Count;
    RootedLive(m, [], v);
    TakeRefOk(m, [], v);
    WriteTempOk(TakeRef(m, v), [] + [v], a, v);
    var m1 := WriteReg(TakeRef(m, v), a, v);
    assert [] + [v] == [] + [m1.Reg(a)];
    AddVarOk(m1, [], a);
    AddCleanOk(m1.k, a);
    TableAdded(m1.k, a);
    RegisterCell(m, a);
    TableBelow(m.k);
  }

  lemma TableBelow(k: Stack)
    requires ChainOk(k) && k.base > 0 && k.HasFrame()
    ensures k.Cf().cleantab < k.base
  {
    FrameBelowSp(k);
    assert LayoutOk(k);
  }

  lemma TableAdded(k: Stack, a: nat)
    requires k.HasTable() && |k.Vars()| + 1 < |k.heap[k.Cf().cleantab].bytes|
    ensures var k' := AddClean(k, a); var t := k.Cf().cleantab;
      && k' == k.(heap := k'.heap) && |k'.heap| == |k.heap|
      && forall j: nat :: j < |k.heap| && j != t ==> k'.heap[j] == k.heap[j]
  {
  }

  lemma TableCut(k: Stack, n: nat)
    requires k.HasTable()
    ensures var k' := CutClean(k, n); var t := k.Cf().cleantab;
      && k' == k.(heap := k'.heap) && |k'.heap| == |k.heap|
      && forall j: nat :: j < |k.heap| && j != t ==> k'.heap[j] == k.heap[j]
  {
  }

  /** The values of the variables that were made after the first `n`, the newest one first. */
  function NewestFirst(m: Machine, n: nat): seq<Value>
    requires n <= |m.k.Vars()|
  {
    var vars := m.k.Vars();
    seq(|vars| - n, i requires 0 <= i < |vars| - n => m.Reg(vars[|vars| - 1 - i]))
  }

  /** CLEAN gives up the variables that were made after the first `n`, from the newest one on, and no
      others: those keep their values. */
  lemma VariablesCleaned(m: Machine, n: nat)
    requires Inv(m) && CanExecute(m, Clean(n))
    ensures n <= |m.k.Vars()| && Exec(m, Clean(n)).Continue?
    ensures var m' := Exec(m, Clean(n)).m;
      && m'.k.Vars() == m.k.Vars()[..n] && (forall a: nat :: m'.Reg(a) == m.Reg(a)) && m'.k.pc == m.k.pc + 2
      && m'.st == Release(m.st, NewestFirst(m, n))
      && (m'.k.base, m'.k.sbase, m'.k.sp) == (m.k.base, m.k.sbase, m.k.sp) && Calls(m'.k) == Calls(m.k)
      && m' == m.(k := m'.k, st := m'.st)
  {
    hide ChainOk, Accounted, LimboOk, CallsOk, Calls, OwnedValues, LimboObjects, Release, CleanVars, NewestFirst;
    AdvanceSame(m, 2);
    var m0 := Advance(m, 2);
    assert Exec(m, Clean(n)) == Continue(CleanVars(m0, n));
    assert forall a: nat :: m0.Reg(a) == m.Reg(a);
    SameNewest(m, m0, n);
    VariablesCut(m0, n);
  }

  lemma SameNewest(m: Machine, m0: Machine, n: nat)
    requires m0.k == m.k.(pc := m0.k.pc) && n <= |m.k.Vars()|
    ensures n <= |m0.k.Vars()| && NewestFirst(m0, n) == NewestFirst(m, n)
  {
    var vars := m.k.Vars();
    assert m0.k.Vars() == vars;
    forall i | 0 <= i < |vars| - n ensures NewestFirst(m0, n)[i] == NewestFirst(m, n)[i] {
      assert m0.Reg(vars[|vars| - 1 - i]) == m.Reg(vars[|vars| - 1 - i]);
    }
  }

  lemma VariablesCut(m: Machine, n: nat)
    requires Inv(m) && !InNative(m.k) && n <= |m.k.Vars()|
    ensures var m' := CleanVars(m, n);
      && m'.k.Vars() == m.k.Vars()[..n] && (forall a: nat :: m'.Reg(a) == m.Reg(a)) && m'.k == m.k.(heap := m'.k.heap)
      && m'.st == Release(m.st, NewestFirst(m, n))
      && Calls(m'.k) == Calls(m.k) && m' == m.(k := m'.k, st := m'.st)
  {
    hide ChainOk, Accounted, LimboOk, CallsOk, Calls, OwnedValues, LimboObjects, Release, CutClean, VarValues,
         NewestFirst, Count;
    CleanVarsOk(m, [], n);
    CutCleanOk(m.k, n);
    TableCut(m.k, n);
    TableBelow(m.k);
    VarValuesAre(m, n);
  }

  lemma VarValuesAre(m: Machine, n: nat)
    requires n <= |m.k.Vars()|
    ensures VarValues(m.k.heap, m.k.base, m.k.Vars()[n..]) == NewestFirst(m, n)
  {
    hide VarValues;
    var vars := m.k.Vars();
    var cut := vars[n..];
    ValuesReversed(m.k.heap, m.k.base, cut);
    forall i | 0 <= i < |cut| ensures VarValues(m.k.heap, m.k.base, cut)[i] == NewestFirst(m, n)[i] {
      assert cut[|cut| - 1 - i] == vars[n + (|cut| - 1 - i)] == vars[|vars| - 1 - i];
      assert NewestFirst(m, n)[i] == m.Reg(vars[|vars| - 1 - i]);
    }
  }

  lemma {:induction false} ValuesReversed(heap: seq<Cell>, base: nat, vars: seq<nat>)
    ensures |VarValues(heap, base, vars)| == |vars|
    ensures forall i :: 0 <= i < |vars| ==>
              VarValues(heap, base, vars)[i] == RegValue(heap, base + vars[|vars| - 1 - i])
    decreases |vars|
  {
    if vars != [] { ValuesReversed(heap, base, vars[..|vars| - 1]); }
  }

  /** SETARGI changes the one argument that it names, and GETARGI then reads the new value; an argument
      that was not passed cannot be set. */
  lemma ArgumentSet(m: Machine, a: nat, n: nat, d: nat)
    requires Inv(m) && CanExecute(m, SetArgI(a, n)) && d < FrameSize(m.k.Cf().f)
    ensures n < m.k.Cf().argc ==> Exec(m, SetArgI(a, n)).Continue? && var m' := Exec(m, SetArgI(a, n)).m;
      && Only(m.k.heap, m'.k.heap, m.k.Cf().argv + n, m.Reg(a)) && Calls(m'.k) == Calls(m.k)
      && m'.k == m.k.(heap := m'.k.heap, pc := m.k.pc + 3)
      && Exec(m', GetArgI(d, n)).m.Reg(d) == m.Reg(a)
    ensures n >= m.k.Cf().argc ==> Exec(m, SetArgI(a, n)) == ThrowCode(Advance(m, 3), 45)
  {
    hide ChainOk, Accounted, LimboOk, CallsOk, Calls, OwnedValues, LimboObjects, AssignCell, KeepsOwner, Owns,
         ThrowCode;
    AdvanceSame(m, 3);
    var m0 := Advance(m, 3);
    if n < m.k.Cf().argc {
      var j := m.k.Cf().argv + n;
      assert Exec(m, SetArgI(a, n)) == Continue(AssignCell(m0, j, m0.Reg(a)));
      ArgIsOwned(m0, n);
      SlotAssigned(m0, j, m0.Reg(a));
      AssignCellOk(m0, [], j, m0.Reg(a));
      TopCall(m0.k);
      ArgumentReadBack(m0, AssignCell(m0, j, m0.Reg(a)), d, n);
    }
  }

  /** What GETARGI reads is what is in the argument's cell. */
  lemma ArgumentReadBack(m: Machine, m': Machine, d: nat, n: nat)
    requires ChainOk(m.k) && !InNative(m.k) && Inv(m') && Calls(m'.k) == Calls(m.k)
    requires n < m.k.Cf().argc && d < FrameSize(m.k.Cf().f)
    ensures Exec(m', GetArgI(d, n)).m.Reg(d) == RegValue(m'.k.heap, m.k.Cf().argv + n)
  {
    hide ChainOk, Accounted, LimboOk, CallsOk, Calls, OwnedValues, LimboObjects, Grab;
    TopCall(m.k);
    EelFrame(m', []);
    TopCall(m'.k);
    AdvanceSame(m', 3);
    RegisterRead(Advance(m', 3), d, RegValue(m'.k.heap, m.k.Cf().argv + n));
  }

  /** NEW makes a container with the pushed arguments as its items, in the order in which they were
      pushed, and the argument stack is empty. */
  lemma ContainerMade(m: Machine, a: nat)
    requires Inv(m) && CanExecute(m, New(a))
    ensures Exec(m, New(a)).Continue?
    ensures var m' := Exec(m, New(a)).m; var o := |m.st|;
      && m'.Reg(a) == Ref(o) && |m'.st| == o + 1 && m'.st[o].items == Arguments(m.k)
      && m'.st[o].live && o in m'.limboed && Arguments(m'.k) == [] && m'.k.pc == m.k.pc + 3
      && Calls(m'.k) == Calls(m.k) && (forall b: nat :: b != a && b < FrameSize(m.k.Cf().f) ==> m'.Reg(b) == m.Reg(b))
  {
    hide ChainOk, Accounted, LimboOk, CallsOk, Calls, OwnedValues, LimboObjects, Construct, ClearArgs, Receive,
         Arguments, WriteReg;
    var o, items := |m.st|, Arguments(m.k);
    AdvanceSame(m, 3);
    var m0 := Advance(m, 3);
    assert Arguments(m0.k) == items by { ArgumentsSame(m.k, m0.k); }
    assert forall b: nat :: m0.Reg(b) == m.Reg(b);
    NewOk(m0, a);
    var m1 := m0.(st := Construct(m.st, items));
    NewReceived(m0, a, items);
    var m2 := Receive(WriteReg(m1, a, Ref(o)), Ref(o));
    OnlyArgsCleared(m2);
    ValuesAbove(m2.k);
    ArgsCleared(m2);
    ClearedItems(m2);
    ClearArgsOk'(m2, []);
    var m' := ClearArgs(m2);
    assert Exec(m, New(a)) == Continue(m');
    LimboedLive(m', Ref(o));
    NoArguments(m'.k);
  }

  lemma Constructed(st: Store, items: seq<Value>)
    ensures |Construct(st, items)| == |st| + 1 && Construct(st, items)[|st|].items == items
  {
  }

  lemma ClearedItems(m: Machine)
    ensures |ClearArgs(m).st| == |m.st| && forall o :: 0 <= o < |m.st| ==> ClearArgs(m).st[o].items == m.st[o].items
  {
  }

  lemma NoArguments(k: Stack)
    requires k.sp == k.sbase
    ensures Arguments(k) == []
  {
  }

  /** The new container is in its register, and all other registers are as they were. */
  lemma NewReceived(m: Machine, a: nat, items: seq<Value>)
    requires Inv(m) && !InNative(m.k) && Temp(m, a) && items == Arguments(m.k)
    ensures var o := |m.st|; var m1 := m.(st := Construct(m.st, items));
      var m2 := Receive(WriteReg(m1, a, Ref(o)), Ref(o));
      && Inv(m2) && m2.Reg(a) == Ref(o) && o in m2.limboed && |m2.st| == o + 1 && m2.k.pc == m.k.pc
      && m2.st[o].items == items && SameCalls(m, m2)
      && m2.k.base == m.k.base && forall b: nat :: b != a && b < FrameSize(m.k.Cf().f) ==> m2.Reg(b) == m.Reg(b)
  {
    hide ChainOk, Accounted, LimboOk, CallsOk, Calls, OwnedValues, LimboObjects, Construct, ClearArgs, Receive,
         Arguments;
    var o := |m.st|;
    forall i | 0 <= i < |items| ensures IsLive(m.st, items[i]) {
      ArgumentSlot(m.k, i);
      SlotIsLive(m, m.k.sbase + i);
    }
    ConstructOk(m, [], items);
    Constructed(m.st, items);
    var m1 := m.(st := Construct(m.st, items));
    WriteTempOk(m1, [] + [Ref(o)], a, Ref(o));
    var m2 := WriteReg(m1, a, Ref(o));
    ReceiveOk(m2, [], Ref(o));
    RegistersOnly(m2, Ref(o));
    forall b: nat | b < FrameSize(m.k.Cf().f) ensures Receive(m2, Ref(o)).Reg(b) == m2.Reg(b) {
      RegisterCell(m, b);
      RegisterCell(m2, b);
      ReceiveHeap(m2, Ref(o), m.k.base + b);
    }
    RegisterCell(m, a);
  }

  lemma RegistersOnly(m: Machine, v: Value)
    ensures var k := Receive(m, v).k; (k.base, k.sp, k.sbase, k.pc) == (m.k.base, m.k.sp, m.k.sbase, m.k.pc)
  {
  }

  /** The other instructions that move values go on with the instruction after them. */
  lemma GoesToNext(m: Machine, i: Instr)
    requires Inv(m) && CanExecute(m, i)
    requires i.Push? || i.Assign? || i.GetUval? || i.SetUval? || i.GetVar? || i.SetVar?
    ensures Exec(m, i).Continue?
    ensures var n := if i.Push? then 2 else if i.Assign? then 3 else 4;
      SameRegisters(m.k.(pc := m.k.pc + n, sp := if i.Push? then m.k.sp + 1 else m.k.sp), Exec(m, i).m.k)
  {
    hide Inv, Exec, WellCoded, SameRegisters;
    assert m.k.HasFrame();
    if i.Push? || i.GetUval? || i.GetVar? {
      OnlyChain(m);
      ReadGoes(m, i);
    } else {
      AssignGoes(m, i);
    }
  }

  lemma AssignGoes(m: Machine, i: Instr)
    requires m.k.HasFrame() && WellCoded(m, i) && (i.Assign? || i.SetUval? || i.SetVar?)
    ensures Exec(m, i).Continue?
    ensures SameRegisters(m.k.(pc := m.k.pc + if i.Assign? then 3 else 4), Exec(m, i).m.k)
  {
    hide Own, KeepsOwner, Owns, UvBase, AssignCell, Release;
    var m0 := Advance(m, Size(i));
    if i.Assign? {
      AssignRegisters(m0, m0.k.base + i.a, m0.Reg(i.b));
    } else if i.SetUval? {
      AssignRegisters(m0, UvBase(m0.k.heap, m0.k.base, i.c) + i.b, m0.Reg(i.a));
    }
  }

  lemma ReadGoes(m: Machine, i: Instr)
    requires m.k.HasFrame() && WellCoded(m, i) && (i.Push? || i.GetUval? || i.GetVar?)
    requires m.k.sp <= |m.k.heap| && |m.k.heap| > 0
    ensures Exec(m, i).Continue?
    ensures SameRegisters(m.k.(pc := m.k.pc + (if i.Push? then 2 else 4), sp := if i.Push? then m.k.sp + 1 else m.k.sp),
              Exec(m, i).m.k)
  {
    hide Own, Rooted, Temp, Owns, UvBase, Grab, WriteReg, PushValue;
    var m0 := Advance(m, Size(i));
    if i.Push? {
      PushRegisters(TakeRef(m0, m0.Reg(i.a)), m0.Reg(i.a));
    } else if i.GetUval? {
      ReadRegisters(m0, i.a, RegValue(m0.k.heap, UvBase(m0.k.heap, m0.k.base, i.c) + i.b));
    } else {
      ReadRegisters(m0, i.a, m0.statics[i.b]);
    }
  }

  lemma OnlyChain(m: Machine)
    requires Inv(m)
    ensures m.k.sp <= |m.k.heap| && |m.k.heap| > 0
  {
    ValuesAbove(m.k);
  }

  predicate SameRegisters(k: Stack, k': Stack) {
    (k'.base, k'.sbase, k'.sp, k'.pc) == (k.base, k.sbase, k.sp, k.pc)
  }

  lemma AssignRegisters(m: Machine, j: nat, v: Value)
    ensures SameRegisters(m.k, AssignCell(m, j, v).k)
  {
    hide Release, Own;
  }

  lemma ReadRegisters(m: Machine, a: nat, v: Value)
    ensures SameRegisters(m.k, Grab(WriteReg(m, a, v), v).k)
  {
    hide Own;
  }

  lemma PushRegisters(m: Machine, v: Value)
    requires m.k.sp <= |m.k.heap| && |m.k.heap| > 0
    ensures SameRegisters(m.k.(sp := m.k.sp + 1), PushValue(m, v).k)
  {
    hide Grow;
  }
}
