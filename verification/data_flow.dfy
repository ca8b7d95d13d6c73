/** What is stored is what is read back: arguments, variables of enclosing functions, static
    variables and items of containers. */
module DataFlow {
  import opened Values
  import opened ObjectStore
  import opened CallStack
  import opened Frames
  import opened MachineState
  import opened CallLinks
  import opened Instructions
  import opened Safety
  import opened Steps
  import opened Runs
  import opened CallTheorems

  // ---------------------------------------------------------------------------------------
  // Arguments
  // ---------------------------------------------------------------------------------------

  lemma ArgumentsAre(k: Stack)
    requires k.sbase <= k.sp <= |k.heap|
    ensures |Arguments(k)| == k.sp - k.sbase
    ensures forall n :: 0 <= n < |Arguments(k)| ==> Arguments(k)[n] == RegValue(k.heap, k.sbase + n)
  {
  }

  lemma PushedArguments(k: Stack, v: Value)
    requires k.sbase <= k.sp <= |k.heap| && |k.heap| > 0
    ensures Arguments(PushArg(k, v)) == Arguments(k) + [v]
  {
    hide Arguments, Grow;
    var k' := PushArg(k, v);
    ArgumentsAre(k);
    ArgumentsAre(k');
    var grown := Grow(k.heap, k.sp + 1);
    assert k'.heap == grown[k.sp := Val(v)] && grown[..|k.heap|] == k.heap;
    forall n | 0 <= n < |Arguments(k)| ensures Arguments(k')[n] == Arguments(k)[n] {
      assert grown[..|k.heap|][k.sbase + n] == k.heap[k.sbase + n];
    }
  }

  /** PUSH adds one argument to those that were pushed before. */
  lemma PushAppends(m: Machine, a: nat)
    requires Inv(m) && CanExecute(m, Push(a))
    ensures Arguments(Exec(m, Push(a)).m.k) == Arguments(m.k) + [m.Reg(a)]
  {
    hide ChainOk, Accounted, LimboOk, CallsOk, OwnedValues, LimboObjects, Rooted, Own, Arguments, PushArg;
    ValuesAbove(m.k);
    var k0 := Advance(m, Size(Push(a))).k;
    PushedArguments(k0, m.Reg(a));
    ArgumentsSame(m.k, k0);
  }

  lemma ArgumentsSame(k: Stack, k': Stack)
    requires k' == k.(pc := k'.pc)
    ensures Arguments(k') == Arguments(k)
  {
  }

  /** Argument `n` is an optional one, and `d` is what it is if it is not passed. */
  predicate HasDefault(f: Function, n: nat, d: int) {
    f.reqargs <= n < f.reqargs + f.optargs && n - f.reqargs < |f.defaults| && f.defaults[n - f.reqargs] == Some(d)
  }

  lemma DefaultIs(f: Function, n: nat)
    ensures forall d: int :: HasDefault(f, n, d) <==> DefaultOf(f, n) == Some(d)
  {
  }

  /** Argument number `n` of a function is what its caller pushed as number `n`. If it was not
      passed then it is the default, and to ask for one that has no default is an error. */
  lemma ArgumentArrives(m: Machine, i: Instr, d: nat, n: nat)
    requires Inv(m) && CanExecute(m, i) && CallTarget(m, i).Some? && !CallTarget(m, i).value.0.native
    requires CanExecute(Exec(m, i).m, GetArgI(d, n))
    ensures var m1, f := Exec(m, i).m, CallTarget(m, i).value.0;
      && (n < |Arguments(m.k)| ==>
            Exec(m1, GetArgI(d, n)).Continue? && Exec(m1, GetArgI(d, n)).m.Reg(d) == Arguments(m.k)[n])
      && (forall x: int :: n >= |Arguments(m.k)| && HasDefault(f, n, x) ==>
            Exec(m1, GetArgI(d, n)).Continue? && Exec(m1, GetArgI(d, n)).m.Reg(d) == Integer(x))
      && (n >= |Arguments(m.k)| && (forall x: int :: !HasDefault(f, n, x)) ==>
            Exec(m1, GetArgI(d, n)) == ThrowCode(Advance(m1, 3), 45))
  {
    hide ChainOk, Accounted, LimboOk, CallsOk, Calls, OwnedValues, LimboObjects, CallTarget, ThrowCode, Exec,
         Arguments, Grab, DefaultOf, HasDefault;
    var m1 := Exec(m, i).m;
    DefaultIs(CallTarget(m, i).value.0, n);
    ArgumentCells(m, i);
    ArgumentsAre(m.k);
    ArgumentRead(m1, d, n);
  }

  /** The arguments as the called function finds them, and what else its frame says. */
  lemma ArgumentCells(m: Machine, i: Instr)
    requires Inv(m) && CanExecute(m, i) && CallTarget(m, i).Some? && !CallTarget(m, i).value.0.native
    ensures var m1 := Exec(m, i).m;
      && Inv(m1) && !InNative(m1.k) && m.k.sbase <= m.k.sp <= |m.k.heap|
      && m1.Cf().f == CallTarget(m, i).value.0 && m1.Cf().argv == m.k.sbase && m1.Cf().argc == m.k.sp - m.k.sbase
      && m.k.sp <= |m1.k.heap| && m1.k.Vars() == []
      && m1.Cf().result == ResultSlot(m.k, CallTarget(m, i).value.0, CallTarget(m, i).value.1)
      && forall j :: 0 <= j < m.k.sp ==> RegValue(m1.k.heap, j) == RegValue(m.k.heap, j)
  {
    hide ChainOk, Accounted, LimboOk, CallsOk, Calls, OwnedValues, LimboObjects, CallTarget, Exec, Enter, CheckArgs,
         ControlCoded, ValueCoded, CalledAs, CanEnter, FreeSlot;
    CallEnters(m, i);
    ValuesAbove(m.k);
    var m0 := Advance(m, Size(i));
    assert IsControl(i) by { TargetIsControl(m, i); }
    AdvanceControl(m, Size(i), i);
    AdvanceSame(m, Size(i));
    assert CallTarget(m0, i) == CallTarget(m, i) by { TargetSame(m, i, Size(i)); }
    var (f, result, levels) := CallTarget(m, i).value;
    TargetFits(m0, i);
    FunctionEnters(m0, f, result, levels);
    EnterFrame(m0, f, result, levels, PLAIN);
    CallIsEnter(m, i);
  }

  /** GETARGI. */
  lemma ArgumentRead(m: Machine, d: nat, n: nat)
    requires Inv(m) && CanExecute(m, GetArgI(d, n))
    ensures n < m.Cf().argc ==>
              Exec(m, GetArgI(d, n)).Continue? && Exec(m, GetArgI(d, n)).m.Reg(d) == RegValue(m.k.heap, m.Cf().argv + n)
    ensures n >= m.Cf().argc && DefaultOf(m.Cf().f, n).Some? ==>
              && Exec(m, GetArgI(d, n)).Continue?
              && Exec(m, GetArgI(d, n)).m.Reg(d) == Integer(DefaultOf(m.Cf().f, n).value)
    ensures n >= m.Cf().argc && DefaultOf(m.Cf().f, n).None? ==>
              Exec(m, GetArgI(d, n)) == ThrowCode(Advance(m, Size(GetArgI(d, n))), XHIGHINDEX)
  {
    hide ChainOk, Accounted, LimboOk, CallsOk, Calls, OwnedValues, LimboObjects, ThrowCode, Grab;
    AdvanceSame(m, Size(GetArgI(d, n)));
    RegisterRead(Advance(m, Size(GetArgI(d, n))), d, RegValue(m.k.heap, m.Cf().argv + n));
    if DefaultOf(m.Cf().f, n).Some? {
      RegisterRead(Advance(m, Size(GetArgI(d, n))), d, Integer(DefaultOf(m.Cf().f, n).value));
    }
  }

  /** A value that is read into a register is there. */
  lemma RegisterRead(m: Machine, a: nat, v: Value)
    requires ChainOk(m.k) && m.k.base > 0 && m.k.HasFrame() && a < FrameSize(m.k.Cf().f)
    ensures WriteReg(m, a, v).Reg(a) == v && Grab(WriteReg(m, a, v), v).Reg(a) == v
  {
    hide ChainOk;
    RegisterCell(m, a);
  }

  // ---------------------------------------------------------------------------------------
  // Variables
  // ---------------------------------------------------------------------------------------

  /** One cell has changed. */
  predicate Only(heap: seq<Cell>, heap': seq<Cell>, j: nat, v: Value) {
    j < |heap| && heap' == heap[j := Val(v)]
  }

  /** A slot gets a new value, and no other cell changes. */
  lemma SlotAssigned(m: Machine, j: nat, v: Value)
    requires ChainOk(m.k) && Owns(m.k, j)
    ensures Only(m.k.heap, AssignCell(m, j, v).k.heap, j, v)
    ensures AssignCell(m, j, v).k == m.k.(heap := AssignCell(m, j, v).k.heap)
  {
    hide Own, Release, LayoutChain, LinkChain;
    OwnsBound(m.k, j);
    ValuesAbove(m.k);
  }

  /** Assigning a variable changes that variable, and nothing else. */
  lemma VariableAssigned(m: Machine, a: nat, b: nat)
    requires Inv(m) && CanExecute(m, Assign(a, b))
    ensures var m' := Exec(m, Assign(a, b)).m;
      Only(m.k.heap, m'.k.heap, m.k.base + a, m.Reg(b)) && Calls(m'.k) == Calls(m.k)
  {
    hide ChainOk, Accounted, LimboOk, CallsOk, Calls, OwnedValues, LimboObjects, AssignCell, KeepsOwner, Owns;
    AdvanceSame(m, Size(Assign(a, b)));
    var m0 := Advance(m, Size(Assign(a, b)));
    VarIsOwned(m0, a);
    SlotAssigned(m0, m0.k.base + a, m0.Reg(b));
    AssignCellOk(m0, [], m0.k.base + a, m0.Reg(b));
  }

  /** A function that assigns a variable of an enclosing function does so in the call of that
      function that is still active: nothing else changes, and GETUVAL reads the new value. */
  lemma UpvalueAssigned(m: Machine, a: nat, b: nat, c: nat, d: nat) returns (n: nat, m1: Machine)
    requires Inv(m) && CanExecute(m, SetUval(a, b, c)) && d < FrameSize(m.k.Cf().f)
    ensures m1 == Exec(m, SetUval(a, b, c)).m && Calls(m1.k) == Calls(m.k)
    ensures n < |Calls(m.k)| && Ancestor(m.k.Cf().f, c) == Some(Calls(m.k)[n].cf.f)
    ensures Only(m.k.heap, m1.k.heap, Calls(m.k)[n].base + b, m.Reg(a))
    ensures Exec(m1, GetUval(d, b, c)).m.Reg(d) == m.Reg(a)
  {
    hide ChainOk, Accounted, LimboOk, CallsOk, Calls, OwnedValues, LimboObjects, AssignCell, KeepsOwner, Owns, UvBase,
         Grab;
    var i := SetUval(a, b, c);
    AdvanceSame(m, Size(i));
    var m0 := Advance(m, Size(i));
    TopCall(m.k);
    n := UpvaluesReachAncestor(m.k, m.next, 0, c);
    var j := UvBase(m0.k.heap, m0.k.base, c) + b;
    SlotAssigned(m0, j, m0.Reg(a));
    AssignCellOk(m0, [], j, m0.Reg(a));
    m1 := AssignCell(m0, j, m0.Reg(a));
    var _ := UpvaluesStay(m.k, m1.k, m.next, 0, c);
    EelFrame(m1, []);
    TopCall(m1.k);
    UpvalueRead(m1, d, b, c);
  }

  /** Upvalue links lead to the same place as long as the active calls are the same. */
  lemma {:induction false} UpvaluesStay(k: Stack, k': Stack, next: nat, i: nat, n: nat) returns (j: nat)
    requires ChainOk(k) && ChainOk(k') && CallsOk(Calls(k), next) && Calls(k') == Calls(k)
    requires i < |Calls(k)| && n <= Calls(k)[i].cf.f.need
    ensures j < |Calls(k)|
            && UvBase(k.heap, Calls(k)[i].base, n) == UvBase(k'.heap, Calls(k)[i].base, n) == Calls(k)[j].base
    decreases n
  {
    hide LayoutOk, LinksOk;
    CallsInHeap(k, i);
    CallsInHeap(k', i);
    if n == 0 {
      j := i;
    } else {
      FunctionsOk(k, i);
      assert UplinkOk(Calls(k), i);
      var p :| i < p < |Calls(k)| && Calls(k)[p].base == Calls(k)[i].cf.upvalues
               && Calls(k)[i].cf.f.parent == Some(Calls(k)[p].cf.f);
      j := UpvaluesStay(k, k', next, p, n - 1);
    }
  }

  lemma UpvalueRead(m: Machine, a: nat, b: nat, c: nat)
    requires Inv(m) && !InNative(m.k) && a < FrameSize(m.k.Cf().f)
    ensures Exec(m, GetUval(a, b, c)).m.Reg(a) == RegValue(m.k.heap, UvBase(m.k.heap, m.k.base, c) + b)
  {
    hide ChainOk, Accounted, LimboOk, CallsOk, Calls, OwnedValues, LimboObjects, UvBase, Grab;
    var m0 := Advance(m, Size(GetUval(a, b, c)));
    AdvanceSame(m, Size(GetUval(a, b, c)));
    RegisterRead(m0, a, RegValue(m.k.heap, UvBase(m.k.heap, m.k.base, c) + b));
  }

  /** SETVAR and GETVAR. */
  lemma StaticAssigned(m: Machine, a: nat, b: nat, d: nat)
    requires Inv(m) && CanExecute(m, SetVar(a, b)) && d < FrameSize(m.k.Cf().f)
    ensures var m1 := Exec(m, SetVar(a, b)).m;
      && m1.k.heap == m.k.heap && m1.statics == m.statics[b := m.Reg(a)]
      && Exec(m1, GetVar(d, b)).m.Reg(d) == m.Reg(a)
  {
    hide ChainOk, Accounted, LimboOk, CallsOk, Calls, OwnedValues, LimboObjects, KeepsOwner, Grab, Release, Own;
    var m1 := Exec(m, SetVar(a, b)).m;
    ChainMoved(m.k, m1.k);
    RegisterRead(Advance(m1, Size(GetVar(d, b))), d, m.Reg(a));
  }

  /** The chain does not depend on the program counter, except that of native code. */
  lemma ChainMoved(k: Stack, k': Stack)
    requires ChainOk(k) && !InNative(k) && k' == k.(pc := k'.pc)
    ensures forall n: nat :: ChainOk(k'.(pc := n))
  {
    hide LayoutChain, LinkChain;
    forall n: nat ensures ChainOk(k'.(pc := n)) { AdvanceChain(k, n); }
  }

  // ---------------------------------------------------------------------------------------
  // Items
  // ---------------------------------------------------------------------------------------

  /** `v` names item `i` of an array: integers, booleans and class ids are numbers, and a real number
      names the item of the greatest integer that is not above it. */
  predicate Names(v: Value, i: int) {
    match v
    case Integer(n) => n == i
    case Scalar(_, n) => n == i
    case Real(x) => i as real <= x < i as real + 1.0
    case _ => false
  }

  lemma IndexNames(v: Value)
    ensures forall i: int :: Names(v, i) <==> IndexOf(v) == Some(i)
    ensures v.Nil? || v.Callable? || v.Ref? <==> IndexOf(v).None?
  {
  }

  /** What INDGET gives for item `i`, if there is one. */
  predicate Gets(m: Machine, d: nat, e: nat, c: nat, v: Value)
    requires m.k.HasFrame()
  {
    Exec(m, IndGet(d, e, c)).Continue? && Exec(m, IndGet(d, e, c)).m.Reg(d) == v
  }

  /** After item `i` of an array has been set, INDGET with an index that names item `j` gives the new
      value if that is the same one, and what it gave before if it is another. If the array had to grow,
      the items in between are nil. */
  lemma ItemStored(m: Machine, a: nat, b: nat, c: nat, i: nat, d: nat, e: nat, j: nat) returns (m1: Machine)
    requires Inv(m) && CanExecute(m, IndSet(a, b, c)) && d < FrameSize(m.k.Cf().f) && e < FrameSize(m.k.Cf().f)
    requires m.Reg(c).Ref? && Names(m.Reg(b), i) && Names(m.Reg(e), j) && m.Reg(c).o < |m.st|
    ensures Exec(m, IndSet(a, b, c)) == Continue(m1) && m1.k.HasFrame() && m1.k == m.k.(pc := m.k.pc + 4)
    ensures var items := m.st[m.Reg(c).o].items;
      && |m1.st| == |m.st| && |m1.st[m.Reg(c).o].items| == (if i < |items| then |items| else i + 1)
      && (j == i ==> Gets(m1, d, e, c, m.Reg(a)))
      && (j != i && j < |items| ==> Gets(m1, d, e, c, items[j]))
      && (|items| <= j < i ==> Gets(m1, d, e, c, Nil))
      && (j > i && j >= |items| ==> Exec(m1, IndGet(d, e, c)) == ThrowCode(Advance(m1, 4), 45))
  {
    hide ChainOk, Accounted, LimboOk, CallsOk, Calls, OwnedValues, LimboObjects, Release, Own, ThrowCode, Rooted,
         Exec, Gets;
    m1 := Exec(m, IndSet(a, b, c)).m;
    IndexNames(m.Reg(b));
    IndSetStores(m, a, b, c, i);
    ChainMoved(m.k, m1.k);
    ItemRead(m1, d, e, c, j);
  }

  lemma IndSetStores(m: Machine, a: nat, b: nat, c: nat, i: nat)
    requires Inv(m) && CanExecute(m, IndSet(a, b, c))
    requires m.Reg(c).Ref? && Names(m.Reg(b), i) && m.Reg(c).o < |m.st|
    ensures Exec(m, IndSet(a, b, c)).Continue?
    ensures var m1 := Exec(m, IndSet(a, b, c)).m;
      && m1.k == m.k.(pc := m.k.pc + 4) && |m1.st| == |m.st|
      && m1.st[m.Reg(c).o].items == Stored(m.st[m.Reg(c).o].items, i, m.Reg(a))
  {
    hide ChainOk, Accounted, LimboOk, CallsOk, Calls, OwnedValues, LimboObjects, Release, Own, ThrowCode, Rooted,
         Stored, IndexOf;
    IndexNames(m.Reg(b));
  }

  /** INDGET of an array, with an index that names an item. */
  lemma ItemRead(m: Machine, d: nat, e: nat, c: nat, j: nat)
    requires (forall n: nat :: ChainOk(m.k.(pc := n))) && m.k.base > 0 && m.k.HasFrame() && d < FrameSize(m.k.Cf().f)
    requires m.Reg(c).Ref? && m.Reg(c).o < |m.st| && Names(m.Reg(e), j)
    ensures var items := m.st[m.Reg(c).o].items;
      && (j < |items| ==> Gets(m, d, e, c, items[j]))
      && (j >= |items| ==> Exec(m, IndGet(d, e, c)) == ThrowCode(Advance(m, 4), 45))
  {
    hide ChainOk, Own, Receive, ThrowCode, IndexOf;
    IndexNames(m.Reg(e));
    var items, m0 := m.st[m.Reg(c).o].items, Advance(m, 4);
    assert m0.k == m.k.(pc := m0.k.pc);
    if j < |items| {
      RegisterReceived(TakeRef(m0, items[j]), d, items[j]);
    }
  }

  /** What else can be in the way of INDGET and INDSET: a container that is no array or an index that
      names nothing. Functions have no items with numbers, and none of them can be set. */
  lemma NotIndexed(m: Machine, i: Instr)
    requires Inv(m) && CanExecute(m, i) && (i.IndGet? || i.IndSet?)
    ensures var v, e, r, m0 := m.Reg(i.c), m.Reg(i.b), Exec(m, i), Advance(m, 4);
      && (v.Callable? ==> r == ThrowCode(m0, if i.IndGet? then 46 else 19))
      && (!v.Callable? && !v.Ref? ==> r == ThrowCode(m0, 15))
      && (v.Ref? && (e.Nil? || e.Callable? || e.Ref?) ==> r == ThrowCode(m0, 41))
      && (v.Ref? && (exists n: int :: Names(e, n) && n < 0) ==> r == ThrowCode(m0, 44))
  {
    hide ChainOk, LimboOk, CallsOk, Calls, OwnedValues, LimboObjects, ThrowCode, IndexOf, StoreItem, Receive, Own;
    IndexNames(m.Reg(i.b));
    RootedLive(m, [], m.Reg(i.c));
  }

  lemma RegisterReceived(m: Machine, a: nat, v: Value)
    requires ChainOk(m.k) && m.k.base > 0 && m.k.HasFrame() && a < FrameSize(m.k.Cf().f)
    ensures Receive(WriteReg(m, a, v), v).Reg(a) == v
  {
    hide ChainOk;
    RegisterCell(m, a);
  }
}
