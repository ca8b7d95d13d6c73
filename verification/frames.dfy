/** What the VM does to the heap when it calls, returns, pushes arguments and registers
    variables for cleaning (e_vm.c). */
module Frames {
  import opened Values
  import opened CallStack

  /** `grow_heap`: the size is doubled until it is sufficient. */
  function GrownSize(size: nat, minsize: nat): (r: nat)
    requires size > 0
    ensures r >= size && r >= minsize
    ensures r > size ==> r < 2 * minsize
    decreases minsize - size
  {
    if size >= minsize then size else GrownSize(2 * size, minsize)
  }

  function Grow(heap: seq<Cell>, minsize: nat): (r: seq<Cell>)
    requires |heap| > 0
    ensures |r| >= minsize && |r| >= |heap| && r[..|heap|] == heap
  {
    heap + seq(GrownSize(|heap|, minsize) - |heap|, _ => Raw)
  }

  /** Where a call puts its result. A native function always gets somewhere to put it, even if
      that is its own register; any other function only if it has a result to return. */
  function ResultSlot(k: Stack, f: Function, result: int): int {
    if f.native then if result >= 0 then result else k.sp + TableCells(CleanSize(f)) + CFREGS
    else if f.results then result else -1
  }

  /** The call frame of a new call. */
  function NewFrame(k: Stack, f: Function, result: int, upvalues: nat, serial: nat, mark: Mark): CallFrame
    requires k.sbase <= k.sp
  {
    CallFrame(k.base, k.pc, k.sp, k.sbase, f, [], k.sbase, k.sp - k.sbase, ResultSlot(k, f, result),
              k.sp, upvalues, mark, serial)
  }

  /** `push_frame` and the settings made by its callers. Registers start out undefined in the
      original; the model has them read as nil. */
  function PushFrame(k: Stack, f: Function, result: int, upvalues: nat, serial: nat, mark: Mark): (r: Stack)
    requires k.sp <= |k.heap| && |k.heap| > 0 && k.sbase <= k.sp
  {
    var base := k.sp + TableCells(CleanSize(f)) + CFREGS;
    var cf := NewFrame(k, f, result, upvalues, serial, mark);
    var cells := FrameCells(f, cf);
    var heap := Grow(k.heap, base + FrameSize(f) + MINSTACK);
    Stack(heap[..k.sp] + cells + heap[k.sp + |cells|..],
          base, base + FrameSize(f), base + FrameSize(f), if f.native then k.pc else 0)
  }

  function FrameCells(f: Function, cf: CallFrame): (r: seq<Cell>)
    ensures |r| == TableCells(CleanSize(f)) + CFREGS + FrameSize(f)
    ensures r[0] == Table(seq(TableCells(CleanSize(f)) * VALUE_SIZE, _ => 0))
    ensures r[TableCells(CleanSize(f))] == Frame(cf)
    ensures forall i :: TableCells(CleanSize(f)) + CFREGS <= i < |r| ==> r[i] == Val(Nil)
  {
    [Table(seq(TableCells(CleanSize(f)) * VALUE_SIZE, _ => 0))]
    + seq(TableCells(CleanSize(f)) - 1, _ => Raw)
    + [Frame(cf)]
    + seq(CFREGS - 1, _ => Raw)
    + seq(FrameSize(f), _ => Val(Nil))
  }

  function PushArg(k: Stack, v: Value): (r: Stack)
    requires k.sp <= |k.heap| && |k.heap| > 0
  {
    k.(heap := Grow(k.heap, k.sp + 1)[k.sp := Val(v)], sp := k.sp + 1)
  }

  /** ADDCLEAN: the entry count goes up by one, and the new last entry is written. */
  function AddClean(k: Stack, a: nat): (r: Stack)
    requires k.HasTable() && |k.Vars()| + 1 < |k.heap[k.Cf().cleantab].bytes|
  {
    var bytes := k.heap[k.Cf().cleantab].bytes;
    k.SetTable(bytes[0 := bytes[0] + 1][bytes[0] + 1 := a])
  }

  /** The clean table is cut down to its first `downto` entries. */
  function CutClean(k: Stack, downto: nat): (r: Stack)
    requires k.HasTable()
  {
    k.SetTable(k.heap[k.Cf().cleantab].bytes[0 := downto])
  }

  function SetLimbo(k: Stack, limbo: seq<Obj>): (r: Stack)
    requires k.HasFrame()
  {
    k.SetFrame(k.Cf().(limbo := limbo))
  }

  // ---------------------------------------------------------------------------------------

  /** A call can be made from a well-formed chain: `f` is well-formed, and `result` is either
      "none" or a register that nothing owns, and a native function is called by EEL code. */
  ghost predicate CanPush(k: Stack, f: Function, result: int, mark: Mark) {
    && ChainOk(k) && WellFormedFunction(f)
    && result >= -1 && (result >= 0 ==> FreeSlot(k, result))
    && MarkFits(k, f, ResultSlot(k, f, result), mark)
    && (f.native ==> k.base > 0 && k.HasFrame() && !k.Cf().f.native)
  }

  lemma PushFrameAgree(k: Stack, f: Function, result: int, upvalues: nat, serial: nat, mark: Mark)
    requires ChainOk(k)
    ensures var k' := PushFrame(k, f, result, upvalues, serial, mark);
      && k'.base > 0 && k'.HasFrame() && k'.Below() == k.(heap := k'.heap)
      && k'.sp <= |k'.heap| && k'.sp + MINSTACK <= |k'.heap|
      && (forall i :: 0 <= i < k.sp ==> k'.heap[i] == k.heap[i])
      && k'.Vars() == [] && LayoutOk(k') && k'.sp == k'.sbase && k'.base > k.base
      && k'.Cf() == NewFrame(k, f, result, upvalues, serial, mark)
      && k'.pc == (if f.native then k.pc else 0)
  {
    hide LayoutChain, LinkChain, Grow, ChainOk;
    StackOrder(k);
    var k' := PushFrame(k, f, result, upvalues, serial, mark);
    var n := TableCells(CleanSize(f));
    assert k'.heap[k.sp + n].Frame?;
    assert k'.base - CFREGS == k.sp + n;
    assert k'.heap[k.sp].Table?;
    assert HoldsValues(k'.heap, k'.base, k'.sp);
    var grown := Grow(k.heap, k'.base + FrameSize(f) + MINSTACK);
    forall i | 0 <= i < k.sp ensures k'.heap[i] == k.heap[i] { assert grown[..|k.heap|][i] == k.heap[i]; }
  }

  lemma StackOrder(k: Stack)
    requires ChainOk(k)
    ensures k.base <= k.sbase <= k.sp <= |k.heap| && |k.heap| > 0
  {
  }

  lemma StackedOn(k: Stack, b: Stack)
    requires k.base > 0 && LayoutOk(k) && LinksOk(k) && k.Below() == b && ChainOk(b)
    ensures ChainOk(k) && OwnedValues(k) == FrameValues(k) + OwnedValues(b)
    ensures LimboObjects(k) == k.Cf().limbo + LimboObjects(b)
    ensures Calls(k) == [ActiveCall(k.base, k.Cf().(limbo := []))] + Calls(b)
  {
  }

  lemma SameTop(k: Stack, heap: seq<Cell>)
    requires k.base > 0 && ChainOk(k) && k.sp <= |heap|
    requires forall i :: 0 <= i < k.sp ==> heap[i] == k.heap[i]
    ensures k.(heap := heap).HasFrame() && k.(heap := heap).Cf() == k.Cf()
  {
  }

  lemma PushFrameLinks(k: Stack, f: Function, result: int, upvalues: nat, serial: nat, mark: Mark, k': Stack)
    requires CanPush(k, f, result, mark) && (k.base > 0 ==> k.HasFrame() && k.Cf().serial < serial)
    requires k'.HasFrame() && k'.Cf() == NewFrame(k, f, result, upvalues, serial, mark)
    requires k'.base == k.sp + TableCells(CleanSize(f)) + CFREGS && (f.native ==> k'.pc == k.pc)
    requires k'.Below() == k.(heap := k'.heap) && k.sp <= |k'.heap|
    requires forall i :: 0 <= i < k.sp ==> k'.heap[i] == k.heap[i]
    ensures LinksOk(k')
  {
    var b := k.(heap := k'.heap);
    if k.base > 0 {
      assert b.Cf() == k.Cf() by { SameTop(k, k'.heap); }
    }
    if result >= 0 {
      assert FreeSlot(b, result) by { AgreeChain(k, k'.heap); }
    }
  }

  lemma PushFrameOk(k: Stack, f: Function, result: int, upvalues: nat, serial: nat, mark: Mark)
    requires CanPush(k, f, result, mark) && (k.base > 0 ==> k.HasFrame() && k.Cf().serial < serial)
    ensures var k' := PushFrame(k, f, result, upvalues, serial, mark);
      && ChainOk(k') && OwnedValues(k') == OwnedValues(k) && LimboObjects(k') == LimboObjects(k)
      && Calls(k') == [ActiveCall(k'.base, NewFrame(k, f, result, upvalues, serial, mark))] + Calls(k)
  {
    var k' := PushFrame(k, f, result, upvalues, serial, mark);
    PushFrameAgree(k, f, result, upvalues, serial, mark);
    assert k'.Cf() == NewFrame(k, f, result, upvalues, serial, mark);
    PushFrameStacked(k, f, result, upvalues, serial, mark, k');
  }

  lemma PushFrameStacked(k: Stack, f: Function, result: int, upvalues: nat, serial: nat, mark: Mark, k': Stack)
    requires CanPush(k, f, result, mark) && (k.base > 0 ==> k.HasFrame() && k.Cf().serial < serial)
    requires k'.base > 0 && LayoutOk(k') && k'.Cf() == NewFrame(k, f, result, upvalues, serial, mark)
    requires k'.base == k.sp + TableCells(CleanSize(f)) + CFREGS && (f.native ==> k'.pc == k.pc)
    requires k'.sbase == k'.sp && k'.Vars() == []
    requires k'.Below() == k.(heap := k'.heap) && k.sp <= |k'.heap|
    requires forall i :: 0 <= i < k.sp ==> k'.heap[i] == k.heap[i]
    ensures ChainOk(k') && OwnedValues(k') == OwnedValues(k) && LimboObjects(k') == LimboObjects(k)
    ensures Calls(k') == [ActiveCall(k'.base, NewFrame(k, f, result, upvalues, serial, mark))] + Calls(k)
  {
    PushFrameLinks(k, f, result, upvalues, serial, mark, k');
    AgreeChain(k, k'.heap);
    StackedOn(k', k.(heap := k'.heap));
    assert FrameValues(k') == [];
  }

  /** Writing a value to a register or argument slot. */
  lemma WriteOk(k: Stack, j: nat, v: Value)
    requires ChainOk(k) && j < k.sp && k.heap[j].Val?
    ensures ChainOk(k.Write(j, v))
    ensures LimboObjects(k.Write(j, v)) == LimboObjects(k) && Calls(k.Write(j, v)) == Calls(k)
    ensures !Owns(k, j) ==> SameRefs(OwnedValues(k.Write(j, v)), OwnedValues(k))
    ensures Owns(k, j) ==>
      SameRefs(OwnedValues(k.Write(j, v)) + [CellValue(k.heap[j])], OwnedValues(k) + [v])
  {
    var heap := k.Write(j, v).heap;
    ShapeChain(k, heap);
    ShapeLayout(k, heap);
    WriteRefs(k, j, v);
  }

  lemma OwnsCell(k: Stack, j: nat)
    requires ChainOk(k) && Owns(k, j)
    ensures j < k.sp <= |k.heap| && k.heap[j].Val?
  {
    OwnsBound(k, j);
    VarsOk(k);
  }

  lemma WriteRefs(k: Stack, j: nat, v: Value)
    requires LayoutChain(k) && j < k.sp && k.heap[j].Val?
    ensures !Owns(k, j) ==> SameRefs(OwnedValues(k.Write(j, v)), OwnedValues(k))
    ensures Owns(k, j) ==>
      SameRefs(OwnedValues(k.Write(j, v)) + [CellValue(k.heap[j])], OwnedValues(k) + [v])
  {
    var new', was := OwnedValues(k.Write(j, v)), OwnedValues(k);
    CountPush(new', CellValue(k.heap[j]));
    CountPush(was, v);
    forall o: Obj
      ensures !Owns(k, j) ==> Count(new', o) == Count(was, o)
      ensures Owns(k, j) ==> Count(new' + [CellValue(k.heap[j])], o) == Count(was + [v], o)
    {
      OwnedWrite(k, j, v, o);
    }
  }

  lemma MoveSpKeeps(k: Stack, sp: nat)
    requires ChainOk(k) && k.sbase <= sp <= |k.heap| && HoldsValues(k.heap, k.sbase, sp)
    ensures ChainOk(k.(sp := sp))
    ensures LimboObjects(k.(sp := sp)) == LimboObjects(k) && Calls(k.(sp := sp)) == Calls(k)
  {
    if k.base > 0 {
      assert k.(sp := sp).Below() == k.Below();
      assert LayoutOk(k.(sp := sp));
    }
  }

  lemma MoveSpCount(k: Stack, sp: nat, o: Obj)
    requires k.sp <= |k.heap| && sp <= |k.heap|
    ensures Count(OwnedValues(k.(sp := sp)), o) + Count(ArgValues(k.heap, k.sbase, k.sp), o)
         == Count(OwnedValues(k), o) + Count(ArgValues(k.heap, k.sbase, sp), o)
  {
    hide ArgValues, VarValues, OwnedValues, Count;
    OwnedSplit(k, o);
    OwnedSplit(k.(sp := sp), o);
    var vars := VarValues(k.heap, k.base, k.Vars());
    CountAppend(ArgValues(k.heap, k.sbase, k.sp), vars, o);
    CountAppend(ArgValues(k.heap, k.sbase, sp), vars, o);
    assert k.(sp := sp).Vars() == k.Vars();
  }

  lemma PushArgCount(k: Stack, v: Value, o: Obj)
    requires k.sbase <= k.sp < |k.heap| && k.heap[k.sp] == Val(v)
    ensures Count(OwnedValues(k.(sp := k.sp + 1)), o) == Count(OwnedValues(k) + [v], o)
  {
    CountPush(OwnedValues(k), v);
    MoveSpCount(k, k.sp + 1, o);
    assert ArgValues(k.heap, k.sbase, k.sp + 1)[1..] == ArgValues(k.heap, k.sbase, k.sp);
  }

  lemma ClearArgsCount(k: Stack, o: Obj)
    requires k.sbase <= k.sp <= |k.heap|
    ensures Count(OwnedValues(k), o)
         == Count(OwnedValues(k.(sp := k.sbase)) + ArgValues(k.heap, k.sbase, k.sp), o)
  {
    CountAppend(OwnedValues(k.(sp := k.sbase)), ArgValues(k.heap, k.sbase, k.sp), o);
    MoveSpCount(k, k.sbase, o);
  }

  lemma ValuesAbove(k: Stack)
    requires ChainOk(k)
    ensures k.sbase <= k.sp <= |k.heap| && |k.heap| > 0 && HoldsValues(k.heap, k.sbase, k.sp)
  {
  }

  lemma PushArgStep(k: Stack, v: Value)
    requires ChainOk(k) && k.sp < |k.heap| && k.heap[k.sp] == Val(v)
    ensures var k' := k.(sp := k.sp + 1);
      && ChainOk(k') && LimboObjects(k') == LimboObjects(k) && Calls(k') == Calls(k)
      && SameRefs(OwnedValues(k'), OwnedValues(k) + [v])
  {
    hide Count, OwnedValues, ArgValues, LayoutOk, LinksOk;
    ValuesAbove(k);
    MoveSpKeeps(k, k.sp + 1);
    forall o: Obj ensures Count(OwnedValues(k.(sp := k.sp + 1)), o) == Count(OwnedValues(k) + [v], o) {
      PushArgCount(k, v, o);
    }
  }

  lemma PushArgHeap(k: Stack, v: Value)
    requires k.sp <= |k.heap| && |k.heap| > 0
    ensures var heap := PushArg(k, v).heap;
      && k.sp < |heap| && heap[k.sp] == Val(v) && (forall i :: 0 <= i < k.sp ==> heap[i] == k.heap[i])
      && PushArg(k, v) == k.(heap := heap).(sp := k.sp + 1)
  {
  }

  lemma PushArgOk(k: Stack, v: Value)
    requires ChainOk(k) && k.sp <= |k.heap| && |k.heap| > 0
    ensures var k' := PushArg(k, v);
      && ChainOk(k') && LimboObjects(k') == LimboObjects(k) && Calls(k') == Calls(k)
      && (forall i :: 0 <= i < k.sp ==> k'.heap[i] == k.heap[i])
      && SameRefs(OwnedValues(k'), OwnedValues(k) + [v])
  {
    hide Count, OwnedValues, LimboObjects, ArgValues, LayoutOk, LinksOk;
    PushArgHeap(k, v);
    var heap := PushArg(k, v).heap;
    AgreeChain(k, heap);
    PushArgStep(k.(heap := heap), v);
  }

  lemma ClearArgsOk(k: Stack)
    requires ChainOk(k)
    ensures var k' := k.(sp := k.sbase);
      && ChainOk(k') && LimboObjects(k') == LimboObjects(k) && Calls(k') == Calls(k)
      && k.sbase <= k.sp <= |k.heap|
      && SameRefs(OwnedValues(k), OwnedValues(k') + ArgValues(k.heap, k.sbase, k.sp))
  {
    ValuesAbove(k);
    MoveSpKeeps(k, k.sbase);
    forall o: Obj
      ensures Count(OwnedValues(k), o)
           == Count(OwnedValues(k.(sp := k.sbase)) + ArgValues(k.heap, k.sbase, k.sp), o)
    {
      ClearArgsCount(k, o);
    }
  }

  /** Leaving a call whose arguments, variables and limbo list are gone. */
  lemma PopOk(k: Stack)
    requires ChainOk(k) && k.base > 0 && k.sp == k.sbase && k.Vars() == [] && k.Cf().limbo == []
    ensures ChainOk(k.Below()) && Calls(k) == [ActiveCall(k.base, k.Cf().(limbo := []))] + Calls(k.Below())
    ensures OwnedValues(k) == OwnedValues(k.Below())
    ensures LimboObjects(k) == LimboObjects(k.Below())
  {
    assert FrameValues(k) == [];
  }

  // ---------------------------------------------------------------------------------------
  // Clean table and limbo list of the running call
  // ---------------------------------------------------------------------------------------

  lemma TableLayout(k: Stack, bytes: seq<nat>)
    requires k.base > 0 && LayoutOk(k) && |bytes| == |k.heap[k.Cf().cleantab].bytes| > bytes[0]
    requires bytes[0] <= CleanSize(k.Cf().f) && DistinctVars(bytes[1..bytes[0] + 1], FrameSize(k.Cf().f))
    ensures var k' := k.SetTable(bytes);
      && LayoutOk(k') && k'.Cf() == k.Cf() && k'.Below() == k.Below().(heap := k'.heap)
      && k'.Vars() == bytes[1..bytes[0] + 1]
      && (forall i :: 0 <= i < k.Cf().rSp ==> k'.heap[i] == k.heap[i])
      && (forall i :: k.base <= i < |k.heap| ==> k'.heap[i] == k.heap[i])
  {
  }

  /** A change above the caller's arguments that keeps the frame, up to its limbo list. */
  lemma TopChanged(k: Stack, k': Stack)
    requires ChainOk(k) && k.base > 0 && k' == k.(heap := k'.heap)
    requires LayoutOk(k') && k'.Cf().(limbo := []) == k.Cf().(limbo := [])
    requires k.Cf().f.native ==> k'.Cf().limbo == []
    requires forall i :: 0 <= i < k.Cf().rSp ==> k'.heap[i] == k.heap[i]
    ensures ChainOk(k') && Calls(k') == Calls(k)
    ensures OwnedValues(k') == FrameValues(k') + OwnedValues(k.Below())
    ensures OwnedValues(k) == FrameValues(k) + OwnedValues(k.Below())
    ensures LimboObjects(k') == k'.Cf().limbo + LimboObjects(k.Below())
    ensures LimboObjects(k) == k.Cf().limbo + LimboObjects(k.Below())
  {
    var b := k.Below();
    assert k.Cf().rSp <= |k'.heap|;
    AgreeChain(b, k'.heap);
    TopLinks(k, k');
    StackedOn(k', b.(heap := k'.heap));
    StackedOn(k, b);
  }

  /** Replacing the clean table of the running call. */
  lemma TableChanged(k: Stack, bytes: seq<nat>)
    requires ChainOk(k) && k.base > 0 && |bytes| == |k.heap[k.Cf().cleantab].bytes| > bytes[0]
    requires bytes[0] <= CleanSize(k.Cf().f) && DistinctVars(bytes[1..bytes[0] + 1], FrameSize(k.Cf().f))
    ensures var k' := k.SetTable(bytes);
      && ChainOk(k') && LimboObjects(k') == LimboObjects(k) && Calls(k') == Calls(k)
      && k'.Vars() == bytes[1..bytes[0] + 1] && k'.Cf() == k.Cf()
      && OwnedValues(k) == ArgValues(k.heap, k.sbase, k.sp)
                           + VarValues(k.heap, k.base, k.Vars()) + OwnedValues(k.Below())
      && OwnedValues(k') == ArgValues(k.heap, k.sbase, k.sp)
                           + VarValues(k.heap, k.base, k'.Vars()) + OwnedValues(k.Below())
  {
    var k' := k.SetTable(bytes);
    TableLayout(k, bytes);
    TopChanged(k, k');
    VarsAgree(k, k', k'.Vars());
    ArgValuesAgree(k.heap, k'.heap, k.sbase, k.sp);
  }

  lemma VarsAgree(k: Stack, k': Stack, vars: seq<nat>)
    requires k'.base == k.base && |k'.heap| == |k.heap|
    requires forall i :: k.base <= i < |k.heap| ==> k'.heap[i] == k.heap[i]
    ensures VarValues(k'.heap, k.base, vars) == VarValues(k.heap, k.base, vars)
  {
    VarValuesAgree(k.heap, k'.heap, k.base, vars);
  }

  /** The links of the running call survive when its frame keeps everything but the limbo list
      and the calls below it are as before. */
  lemma TopLinks(k: Stack, k': Stack)
    requires ChainOk(k) && k.base > 0 && k'.base == k.base && k'.pc == k.pc
    requires k'.HasFrame() && k'.Cf().(limbo := []) == k.Cf().(limbo := [])
    requires k.Cf().f.native ==> k'.Cf().limbo == []
    requires k.Cf().rSp <= |k'.heap|
    requires forall i :: 0 <= i < k.Cf().rSp ==> k'.heap[i] == k.heap[i]
    ensures LinksOk(k')
  {
    var b := k.Below();
    AgreeChain(b, k'.heap);
    assert k'.Below() == b.(heap := k'.heap);
    if b.base > 0 { SameTop(b, k'.heap); }
  }

  lemma {:induction false} VarValuesAppend(heap: seq<Cell>, base: nat, a: seq<nat>, b: seq<nat>)
    ensures VarValues(heap, base, a + b) == VarValues(heap, base, b) + VarValues(heap, base, a)
    decreases |b|
  {
    if b == [] {
      assert a + b == a;
    } else {
      var n := |b| - 1;
      VarValuesAppend(heap, base, a, b[..n]);
      assert (a + b)[..|a + b| - 1] == a + b[..n];
      assert (a + b)[|a + b| - 1] == b[n];
      var x := [RegValue(heap, base + b[n])];
      assert x + (VarValues(heap, base, b[..n]) + VarValues(heap, base, a))
          == (x + VarValues(heap, base, b[..n])) + VarValues(heap, base, a);
    }
  }

  /** What the two ways of editing a clean table do to its entries. */
  lemma TableBytes(bytes: seq<nat>, downto: nat, a: nat)
    requires |bytes| > 0 && downto <= bytes[0] < |bytes|
    ensures bytes[0 := downto][1..downto + 1] == bytes[1..bytes[0] + 1][..downto]
    ensures bytes[0] + 1 < |bytes| ==>
              var b := bytes[0 := bytes[0] + 1][bytes[0] + 1 := a];
              b[1..b[0] + 1] == bytes[1..bytes[0] + 1] + [a]
  {
  }

  /** References in a part that is replaced inside a list. */
  lemma ReplacePart(a: seq<Value>, x: seq<Value>, y: seq<Value>, b: seq<Value>, extra: seq<Value>)
    requires SameRefs(y, x + extra)
    ensures SameRefs(a + y + b, a + x + b + extra)
  {
    forall o: Obj ensures Count(a + y + b, o) == Count(a + x + b + extra, o) {
      CountAppend(a + y, b, o);
      CountAppend(a, y, o);
      CountAppend(a + x + b, extra, o);
      CountAppend(a + x, b, o);
      CountAppend(a, x, o);
      CountAppend(x, extra, o);
    }
  }

  lemma SwapRefs(a: seq<Value>, b: seq<Value>)
    ensures SameRefs(a + b, b + a)
  {
    CountAppendAll(a, b);
    CountAppendAll(b, a);
  }

  /** A register that joins the clean table makes its frame an owner of what it holds. */
  lemma AddCleanOk(k: Stack, a: nat)
    requires ChainOk(k) && k.base > 0 && |k.Vars()| < CleanSize(k.Cf().f)
    requires a < FrameSize(k.Cf().f) && a !in k.Vars()
    ensures k.HasTable() && |k.Vars()| + 1 < |k.heap[k.Cf().cleantab].bytes|
    ensures var k' := AddClean(k, a);
      && ChainOk(k') && LimboObjects(k') == LimboObjects(k) && Calls(k') == Calls(k)
      && k'.Vars() == k.Vars() + [a] && k'.Cf() == k.Cf()
      && SameRefs(OwnedValues(k'), OwnedValues(k) + [RegValue(k.heap, k.base + a)])
  {
    hide OwnedValues, LimboObjects, Calls, VarValues, ArgValues, LinksOk;
    var vars, r := k.Vars(), RegValue(k.heap, k.base + a);
    assert LayoutOk(k);
    var bytes := k.heap[k.Cf().cleantab].bytes;
    var bytes': seq<nat> := bytes[0 := bytes[0] + 1][bytes[0] + 1 := a];
    TableBytes(bytes, bytes[0], a);
    assert DistinctVars(vars + [a], FrameSize(k.Cf().f));
    TableChanged(k, bytes');
    AddCleanRefs(k, vars, a, ArgValues(k.heap, k.sbase, k.sp), OwnedValues(k.Below()));
  }

  lemma AddCleanRefs(k: Stack, vars: seq<nat>, a: nat, args: seq<Value>, below: seq<Value>)
    ensures SameRefs(args + VarValues(k.heap, k.base, vars + [a]) + below,
                     args + VarValues(k.heap, k.base, vars) + below + [RegValue(k.heap, k.base + a)])
  {
    var x, r := VarValues(k.heap, k.base, vars), RegValue(k.heap, k.base + a);
    VarValuesAppend(k.heap, k.base, vars, [a]);
    assert VarValues(k.heap, k.base, [a]) == [r] + VarValues(k.heap, k.base, [a][..0]);
    SwapRefs([r], x);
    ReplacePart(args, x, [r] + x, below, [r]);
  }

  /** Variables that are cut from the clean table are the ones whose values are given up. */
  lemma CutCleanOk(k: Stack, downto: nat)
    requires ChainOk(k) && k.base > 0 && downto <= |k.Vars()|
    ensures k.HasTable()
    ensures var k' := CutClean(k, downto);
      && ChainOk(k') && LimboObjects(k') == LimboObjects(k) && Calls(k') == Calls(k)
      && k'.Vars() == k.Vars()[..downto] && k'.Cf() == k.Cf()
      && SameRefs(OwnedValues(k), OwnedValues(k') + VarValues(k.heap, k.base, k.Vars()[downto..]))
  {
    hide Count, OwnedValues, LimboObjects, Calls, LinkChain, VarValues, ArgValues;
    assert LayoutOk(k);
    var bytes := k.heap[k.Cf().cleantab].bytes;
    TableBytes(bytes, downto, 0);
    assert DistinctVars(k.Vars()[..downto], FrameSize(k.Cf().f));
    TableChanged(k, bytes[0 := downto]);
    CutCleanRefs(k, k.Vars(), downto, ArgValues(k.heap, k.sbase, k.sp), OwnedValues(k.Below()));
  }

  lemma CutCleanRefs(k: Stack, vars: seq<nat>, downto: nat, args: seq<Value>, below: seq<Value>)
    requires downto <= |vars|
    ensures SameRefs(args + VarValues(k.heap, k.base, vars) + below,
                     args + VarValues(k.heap, k.base, vars[..downto]) + below
                     + VarValues(k.heap, k.base, vars[downto..]))
  {
    assert vars[..downto] + vars[downto..] == vars;
    VarValuesAppend(k.heap, k.base, vars[..downto], vars[downto..]);
    CutRefs(args, VarValues(k.heap, k.base, vars[..downto]), VarValues(k.heap, k.base, vars[downto..]), below);
  }

  lemma CutRefs(a: seq<Value>, x: seq<Value>, y: seq<Value>, b: seq<Value>)
    ensures SameRefs(a + (y + x) + b, a + x + b + y)
  {
    SwapRefs(y, x);
    ReplacePart(a, x, y + x, b, y);
  }

  lemma LimboChanged(k: Stack, limbo: seq<Obj>)
    requires ChainOk(k) && k.base > 0 && !k.Cf().f.native
    ensures var k' := SetLimbo(k, limbo);
      && ChainOk(k') && OwnedValues(k') == OwnedValues(k) && Calls(k') == Calls(k)
      && k'.Vars() == k.Vars() && k'.Cf() == k.Cf().(limbo := limbo)
      && LimboObjects(k') == limbo + LimboObjects(k.Below())
      && LimboObjects(k) == k.Cf().limbo + LimboObjects(k.Below())
  {
    var k' := SetLimbo(k, limbo);
    LimboLayout(k, limbo);
    TopChanged(k, k');
    VarsAgree(k, k', k'.Vars());
    ArgValuesAgree(k.heap, k'.heap, k.sbase, k.sp);
  }

  lemma LimboLayout(k: Stack, limbo: seq<Obj>)
    requires k.base > 0 && LayoutOk(k)
    ensures var k' := SetLimbo(k, limbo);
      && LayoutOk(k') && k'.Cf() == k.Cf().(limbo := limbo)
      && k'.Below() == k.Below().(heap := k'.heap) && k'.Vars() == k.Vars()
      && (forall i :: 0 <= i < k.Cf().rSp ==> k'.heap[i] == k.heap[i])
      && (forall i :: k.base <= i < |k.heap| ==> k'.heap[i] == k.heap[i])
  {
  }
}
