/** The VM heap: argument stacks, clean tables, call frames and registers of every active call
    laid out in one growing array (e_vm.c, e_vm.h). */
module CallStack {
  import opened Values

  const VALUE_SIZE: nat := 16  // bytes in one heap cell
  const CFREGS: nat := 4       // cells taken by one call frame structure
  const MINSTACK: nat := 32    // argument cells reserved above a new register frame

  /** `serial` does not exist in the original. Frame addresses are reused, so the lemmas
      need a way to say "the same call"; it is never read by an instruction. */
  datatype CallFrame = CallFrame(
    rBase: nat,
    rPc: nat,
    rSp: nat,
    rSbase: nat,
    f: Function,
    limbo: seq<Obj>,
    argv: nat,
    argc: nat,
    result: int,
    cleantab: nat,
    upvalues: nat,
    mark: Mark,
    serial: nat)

  /** The flags of a call frame, and the function that catches exceptions from the call. */
  datatype Mark = Mark(tryBlock: bool, isCatcher: bool, untry: bool, catcher: Option<Function>) {
    predicate InBlock() {
      tryBlock || isCatcher
    }
  }

  const PLAIN: Mark := Mark(false, false, false, None)

  /** What a heap cell holds. A call frame and a clean table each take several cells, of which
      the first carries the contents and the others are `Raw`. Byte 0 of a clean table is the
      number of entries, and the entries follow it. */
  datatype Cell = Val(v: Value) | Frame(cf: CallFrame) | Table(bytes: seq<nat>) | Raw

  function CellValue(c: Cell): Value {
    if c.Val? then c.v else Nil
  }

  /** Cells needed for a clean table of `cleansize` entries and its count byte. */
  function TableCells(cleansize: nat): (n: nat)
    ensures n > 0 && cleansize + 1 <= n * VALUE_SIZE
  {
    (cleansize + VALUE_SIZE) / VALUE_SIZE
  }

  /** Register and clean table sizes that a call of `f` gets. */
  function FrameSize(f: Function): nat {
    if f.native then 1 else f.framesize
  }

  function CleanSize(f: Function): nat {
    if f.native then 0 else f.cleansize
  }

  /** The heap together with the registers that say which call is running. */
  datatype Stack = Stack(heap: seq<Cell>, base: nat, sp: nat, sbase: nat, pc: nat) {

    predicate HasFrame() {
      && base >= CFREGS && base - CFREGS < |heap|
      && heap[base - CFREGS].Frame?
      && heap[base - CFREGS].cf.rBase < base
    }

    function Cf(): CallFrame
      requires HasFrame()
    {
      heap[base - CFREGS].cf
    }

    /** The caller of the running call, as it will be when that call returns. */
    function Below(): Stack
      requires HasFrame()
    {
      Stack(heap, Cf().rBase, Cf().rSp, Cf().rSbase, Cf().rPc)
    }

    predicate HasTable() {
      && HasFrame() && Cf().cleantab < |heap|
      && heap[Cf().cleantab].Table?
      && var bytes := heap[Cf().cleantab].bytes;
      && |bytes| > 0 && bytes[0] < |bytes|
    }

    /** The registers listed in the clean table of the running call, oldest first. */
    function Vars(): seq<nat> {
      if HasTable() then
        var bytes := heap[Cf().cleantab].bytes;
        bytes[1..bytes[0] + 1]
      else []
    }

    function SetFrame(cf: CallFrame): Stack
      requires HasFrame()
    {
      this.(heap := heap[base - CFREGS := Frame(cf)])
    }

    function SetTable(bytes: seq<nat>): Stack
      requires HasTable()
    {
      this.(heap := heap[Cf().cleantab := Table(bytes)])
    }

    function Write(j: nat, v: Value): Stack
      requires j < |heap|
    {
      this.(heap := heap[j := Val(v)])
    }
  }

  // ---------------------------------------------------------------------------------------
  // Well-formed call chains
  // ---------------------------------------------------------------------------------------

  predicate HoldsValues(heap: seq<Cell>, lo: nat, hi: nat)
    requires hi <= |heap|
  {
    forall i :: lo <= i < hi ==> heap[i].Val?
  }

  /** Distinct registers of a frame of `framesize` registers. */
  predicate DistinctVars(vars: seq<nat>, framesize: nat) {
    && (forall i :: 0 <= i < |vars| ==> vars[i] < framesize)
    && (forall i, j :: 0 <= i < j < |vars| ==> vars[i] != vars[j])
  }

  /** Layout of the top frame: above the caller's arguments come the clean table, the call
      frame, the registers and then the argument stack of the call itself. */
  ghost predicate LayoutOk(k: Stack) {
    && k.HasFrame()
    && var cf := k.Cf();
    && cf.rBase <= cf.rSbase <= cf.rSp
    && cf.cleantab == cf.rSp
    && k.base == cf.cleantab + TableCells(CleanSize(cf.f)) + CFREGS
    && k.sbase == k.base + FrameSize(cf.f) && k.sbase <= k.sp <= |k.heap|
    && HoldsValues(k.heap, k.base, k.sp)
    && k.HasTable()
    && |k.heap[cf.cleantab].bytes| == TableCells(CleanSize(cf.f)) * VALUE_SIZE
    && |k.Vars()| <= CleanSize(cf.f)
    && DistinctVars(k.Vars(), FrameSize(cf.f))
  }

  /** `slot` is a register of some call in the chain that does not own what it holds. */
  ghost predicate FreeSlot(k: Stack, slot: nat) {
    slot < k.sp <= |k.heap| && k.heap[slot].Val? && !Owns(k, slot)
  }

  /** What holds of the call frame structure, given the caller below it. Native functions are
      called by EEL code. */
  ghost predicate LinksOk(k: Stack)
    requires k.HasFrame()
  {
    var cf, b := k.Cf(), k.Below();
    && WellFormedFunction(cf.f)
    && cf.argv == cf.rSbase && cf.argc == cf.rSp - cf.rSbase
    && (cf.f.native ==> cf.limbo == [] && k.pc == cf.rPc && 0 <= cf.result)
    && (cf.f.native ==> b.base > 0 && b.HasFrame() && !b.Cf().f.native)
    && (b.base > 0 ==> b.HasFrame() && b.Cf().serial < cf.serial)
    && (cf.result >= 0 ==> FreeSlot(b, cf.result) || (cf.f.native && cf.result == k.base))
    && -1 <= cf.result
    && MarkFits(b, cf.f, cf.result, cf.mark)
  }

  /** What the compiler guarantees about the blocks of exception statements: they are made by
      EEL code, and return through the function that they are part of. */
  ghost predicate MarkFits(caller: Stack, f: Function, result: int, mark: Mark) {
    && (mark != PLAIN ==> !f.native)
    && (mark.InBlock() ==>
          && caller.base > 0 && caller.HasFrame() && !caller.Cf().f.native
          && result == caller.Cf().result)
    && (mark.catcher.Some? ==>
          mark.tryBlock && caller.HasFrame() && HandlerFits(mark.catcher.value, caller.Cf()))
  }

  /** `h` can be called to handle an exception on behalf of the call `cf`. */
  predicate HandlerFits(h: Function, cf: CallFrame) {
    && WellFormedFunction(h) && !h.native && h.framesize > 0 && h.cleansize > 0
    && (h.results || cf.result < 0)
    && (h.need > 0 ==> h.parent == Some(cf.f))
  }

  ghost predicate RootOk(k: Stack) {
    k.base == 0 && k.sbase == 1 <= k.sp <= |k.heap| && HoldsValues(k.heap, 0, k.sp)
  }

  /** Every frame in the chain is laid out right. */
  ghost predicate LayoutChain(k: Stack)
    decreases k.base
  {
    if k.base == 0 then RootOk(k) else LayoutOk(k) && LayoutChain(k.Below())
  }

  ghost predicate LinkChain(k: Stack)
    decreases k.base
  {
    k.base > 0 ==> k.HasFrame() && LinksOk(k) && LinkChain(k.Below())
  }

  ghost predicate ChainOk(k: Stack) {
    LayoutChain(k) && LinkChain(k)
  }

  // ---------------------------------------------------------------------------------------
  // Who owns what
  // ---------------------------------------------------------------------------------------

  /** `j` is an argument slot, or a variable in the clean table, of the running call. */
  predicate OwnsHere(k: Stack, j: nat) {
    k.sbase <= j < k.sp || (k.base > 0 && k.base <= j && j - k.base in k.Vars())
  }

  /** The same, for some call in the chain. */
  ghost predicate Owns(k: Stack, j: nat)
    decreases k.base
  {
    OwnsHere(k, j) || (k.base > 0 && k.HasFrame() && Owns(k.Below(), j))
  }

  /** The cells from `lo` up to `hi`, topmost first: the order in which arguments are popped. */
  function ArgValues(heap: seq<Cell>, lo: nat, hi: nat): (r: seq<Value>)
    requires hi <= |heap|
    decreases hi
  {
    if lo >= hi then [] else [CellValue(heap[hi - 1])] + ArgValues(heap, lo, hi - 1)
  }

  /** The listed registers above `base`, newest first: the order in which they are cleaned. */
  function VarValues(heap: seq<Cell>, base: nat, vars: seq<nat>): seq<Value>
    decreases |vars|
  {
    if vars == [] then []
    else
      var n := |vars| - 1;
      [RegValue(heap, base + vars[n])] + VarValues(heap, base, vars[..n])
  }

  function RegValue(heap: seq<Cell>, j: nat): Value {
    if j < |heap| then CellValue(heap[j]) else Nil
  }

  /** Everything owned by the arguments and variables of one call. */
  ghost function FrameValues(k: Stack): seq<Value> {
    ArgValues(k.heap, k.sbase, if k.sp <= |k.heap| then k.sp else 0)
    + VarValues(k.heap, k.base, k.Vars())
  }

  /** Everything owned by the arguments and variables of all calls in the chain. */
  ghost function OwnedValues(k: Stack): seq<Value>
    decreases k.base
  {
    FrameValues(k) + if k.base > 0 && k.HasFrame() then OwnedValues(k.Below()) else []
  }

  /** The objects on the limbo lists of all calls in the chain. */
  ghost function LimboObjects(k: Stack): seq<Obj>
    decreases k.base
  {
    if k.base > 0 && k.HasFrame() then k.Cf().limbo + LimboObjects(k.Below()) else []
  }

  /** One active call: where its registers are, and its call frame without the limbo list.
      Everything recorded here is fixed once the instruction that made the call is done. */
  datatype ActiveCall = ActiveCall(base: nat, cf: CallFrame)

  /** All active calls, the running one first. */
  ghost function Calls(k: Stack): seq<ActiveCall>
    decreases k.base
  {
    if k.base > 0 && k.HasFrame() then [ActiveCall(k.base, k.Cf().(limbo := []))] + Calls(k.Below()) else []
  }

  // ---------------------------------------------------------------------------------------
  // Changing the heap
  // ---------------------------------------------------------------------------------------

  /** Same cells below `n`, except that a value may have been replaced by another value. */
  ghost predicate SameShape(a: seq<Cell>, b: seq<Cell>, n: nat) {
    && n <= |a| && n <= |b|
    && forall i :: 0 <= i < n ==> (a[i].Val? && b[i].Val?) || a[i] == b[i]
  }

  lemma ShapeLocal(k: Stack, heap: seq<Cell>)
    requires k.base > 0 && LayoutOk(k) && SameShape(k.heap, heap, k.sp)
    ensures LayoutOk(k.(heap := heap))
    ensures k.(heap := heap).Vars() == k.Vars() && k.(heap := heap).Cf() == k.Cf()
    ensures k.(heap := heap).Below() == k.Below().(heap := heap)
    ensures SameShape(k.heap, heap, k.Cf().rSp)
  {
  }

  lemma ShapeVars(k: Stack, heap: seq<Cell>)
    requires LayoutChain(k) && SameShape(k.heap, heap, k.sp)
    ensures k.(heap := heap).Vars() == k.Vars()
    ensures forall j: nat :: OwnsHere(k.(heap := heap), j) == OwnsHere(k, j)
  {
    if k.base > 0 { ShapeLocal(k, heap); }
  }

  lemma {:induction false} ShapeOwns(k: Stack, heap: seq<Cell>, j: nat)
    requires LayoutChain(k) && SameShape(k.heap, heap, k.sp)
    ensures Owns(k.(heap := heap), j) == Owns(k, j)
    decreases k.base
  {
    ShapeVars(k, heap);
    if k.base > 0 {
      ShapeLocal(k, heap);
      ShapeOwns(k.Below(), heap, j);
    }
  }

  lemma {:induction false} ShapeLayout(k: Stack, heap: seq<Cell>)
    requires LayoutChain(k) && SameShape(k.heap, heap, k.sp)
    ensures LayoutChain(k.(heap := heap))
    ensures LimboObjects(k.(heap := heap)) == LimboObjects(k)
    ensures Calls(k.(heap := heap)) == Calls(k)
    decreases k.base
  {
    if k.base > 0 {
      ShapeLocal(k, heap);
      ShapeLayout(k.Below(), heap);
    }
  }

  lemma LinksStep(k: Stack, heap: seq<Cell>)
    requires k.base > 0 && LayoutOk(k) && LinksOk(k) && LayoutChain(k.Below())
    requires SameShape(k.heap, heap, k.sp)
    ensures k.(heap := heap).HasFrame() && LinksOk(k.(heap := heap))
  {
    hide DistinctVars, HoldsValues, WellFormedFunction;
    ShapeLocal(k, heap);
    var b := k.Below();
    if b.base > 0 { ShapeLocal(b, heap); }
    if k.Cf().result >= 0 { ShapeOwns(b, heap, k.Cf().result); }
  }

  lemma {:induction false} ShapeLinks(k: Stack, heap: seq<Cell>)
    requires LayoutChain(k) && LinkChain(k) && SameShape(k.heap, heap, k.sp)
    ensures LinkChain(k.(heap := heap))
    decreases k.base
  {
    hide LinksOk, DistinctVars, HoldsValues;
    if k.base > 0 {
      ShapeLocal(k, heap);
      ShapeLinks(k.Below(), heap);
      LinksStep(k, heap);
    }
  }

  /** Overwriting values by values keeps the chain well-formed. */
  lemma ShapeChain(k: Stack, heap: seq<Cell>)
    requires ChainOk(k) && SameShape(k.heap, heap, k.sp)
    ensures ChainOk(k.(heap := heap))
  {
    ShapeLayout(k, heap);
    ShapeLinks(k, heap);
  }

  lemma {:induction false} OwnsBound(k: Stack, j: nat)
    requires LayoutChain(k) && Owns(k, j)
    ensures j < k.sp && k.heap[j].Val?
    decreases k.base
  {
    if k.base > 0 && !(k.sbase <= j < k.sp) {
      if OwnsHere(k, j) {
        assert j - k.base < FrameSize(k.Cf().f);
      } else {
        OwnsBound(k.Below(), j);
      }
    }
  }

  lemma {:induction false} ArgValuesAgree(a: seq<Cell>, b: seq<Cell>, lo: nat, hi: nat)
    requires hi <= |a| && hi <= |b|
    requires forall i :: lo <= i < hi ==> CellValue(a[i]) == CellValue(b[i])
    ensures ArgValues(a, lo, hi) == ArgValues(b, lo, hi)
    decreases hi
  {
    if lo < hi { ArgValuesAgree(a, b, lo, hi - 1); }
  }

  lemma {:induction false} VarValuesAgree(a: seq<Cell>, b: seq<Cell>, base: nat, vars: seq<nat>)
    requires forall i :: 0 <= i < |vars| ==> RegValue(a, base + vars[i]) == RegValue(b, base + vars[i])
    ensures VarValues(a, base, vars) == VarValues(b, base, vars)
    decreases |vars|
  {
    if vars != [] { VarValuesAgree(a, b, base, vars[..|vars| - 1]); }
  }

  lemma FrameValuesAgree(k: Stack, heap: seq<Cell>)
    requires k.base > 0 ==> LayoutOk(k)
    requires k.sbase <= k.sp <= |k.heap| && k.sp <= |heap|
    requires forall i :: 0 <= i < k.sp ==> heap[i] == k.heap[i]
    ensures FrameValues(k.(heap := heap)) == FrameValues(k)
  {
    ArgValuesAgree(k.heap, heap, k.sbase, k.sp);
    if k.base > 0 {
      ShapeLocal(k, heap);
      VarValuesAgree(k.heap, heap, k.base, k.Vars());
    } else {
      assert k.Vars() == [] == k.(heap := heap).Vars();
    }
  }

  /** What a chain owns depends only on the cells below its stack pointer. */
  lemma {:induction false} OwnedAgree(k: Stack, heap: seq<Cell>)
    requires LayoutChain(k) && k.sp <= |heap| && forall i :: 0 <= i < k.sp ==> heap[i] == k.heap[i]
    ensures OwnedValues(k.(heap := heap)) == OwnedValues(k)
    decreases k.base
  {
    hide FrameValues, DistinctVars;
    FrameValuesAgree(k, heap);
    if k.base > 0 {
      ShapeLocal(k, heap);
      OwnedAgree(k.Below(), heap);
    }
  }

  lemma {:induction false} ArgValuesWrite(heap: seq<Cell>, lo: nat, hi: nat, j: nat, v: Value, o: Obj)
    requires lo <= j < hi <= |heap|
    ensures Count(ArgValues(heap[j := Val(v)], lo, hi), o) + Is(CellValue(heap[j]), o)
         == Count(ArgValues(heap, lo, hi), o) + Is(v, o)
    decreases hi
  {
    hide Count;
    var h := heap[j := Val(v)];
    if j == hi - 1 {
      ArgValuesAgree(heap, h, lo, hi - 1);
    } else {
      ArgValuesWrite(heap, lo, hi - 1, j, v, o);
    }
    CountCons(CellValue(h[hi - 1]), ArgValues(h, lo, hi - 1), o);
    CountCons(CellValue(heap[hi - 1]), ArgValues(heap, lo, hi - 1), o);
  }

  lemma {:induction false} VarValuesWrite(
      heap: seq<Cell>, base: nat, vars: seq<nat>, j: nat, v: Value, o: Obj)
    requires base <= j < |heap| && j - base in vars
    requires forall i, n :: 0 <= i < n < |vars| ==> vars[i] != vars[n]
    ensures Count(VarValues(heap[j := Val(v)], base, vars), o) + Is(CellValue(heap[j]), o)
         == Count(VarValues(heap, base, vars), o) + Is(v, o)
    decreases |vars|
  {
    hide Count;
    var h := heap[j := Val(v)];
    var n := |vars| - 1;
    if vars[n] == j - base {
      VarValuesAgree(heap, h, base, vars[..n]);
    } else {
      VarValuesWrite(heap, base, vars[..n], j, v, o);
    }
    CountCons(RegValue(h, base + vars[n]), VarValues(h, base, vars[..n]), o);
    CountCons(RegValue(heap, base + vars[n]), VarValues(heap, base, vars[..n]), o);
  }

  lemma ArgValuesWriteAny(heap: seq<Cell>, lo: nat, hi: nat, j: nat, v: Value, o: Obj)
    requires hi <= |heap| && j < |heap|
    ensures Count(ArgValues(heap[j := Val(v)], lo, hi), o)
              + (if lo <= j < hi then Is(CellValue(heap[j]), o) else 0)
         == Count(ArgValues(heap, lo, hi), o) + (if lo <= j < hi then Is(v, o) else 0)
  {
    if lo <= j < hi {
      ArgValuesWrite(heap, lo, hi, j, v, o);
    } else {
      ArgValuesAgree(heap, heap[j := Val(v)], lo, hi);
    }
  }

  lemma VarValuesWriteAny(
      heap: seq<Cell>, base: nat, vars: seq<nat>, j: nat, v: Value, o: Obj)
    requires j < |heap|
    requires forall i, n :: 0 <= i < n < |vars| ==> vars[i] != vars[n]
    ensures var h := heap[j := Val(v)];
      && (base <= j && j - base in vars ==>
            Count(VarValues(h, base, vars), o) + Is(CellValue(heap[j]), o)
            == Count(VarValues(heap, base, vars), o) + Is(v, o))
      && (!(base <= j && j - base in vars) ==> VarValues(h, base, vars) == VarValues(heap, base, vars))
  {
    if base <= j && j - base in vars {
      VarValuesWrite(heap, base, vars, j, v, o);
    } else {
      VarValuesAgree(heap, heap[j := Val(v)], base, vars);
    }
  }

  lemma VarsOk(k: Stack)
    requires LayoutChain(k)
    ensures k.base == 0 ==> k.Vars() == []
    ensures k.base > 0 ==> DistinctVars(k.Vars(), FrameSize(k.Cf().f))
    ensures forall i, n :: 0 <= i < n < |k.Vars()| ==> k.Vars()[i] != k.Vars()[n]
    ensures forall j: nat :: OwnsHere(k, j) ==> (k.base > 0 && k.base <= j) || k.sbase <= j
    ensures k.sbase <= k.sp <= |k.heap|
  {
  }

  lemma FrameValuesWrite(k: Stack, j: nat, v: Value, o: Obj)
    requires LayoutChain(k) && j < k.sp && k.heap[j].Val?
    ensures Count(FrameValues(k.Write(j, v)), o)
              + (if OwnsHere(k, j) then Is(CellValue(k.heap[j]), o) else 0)
         == Count(FrameValues(k), o) + (if OwnsHere(k, j) then Is(v, o) else 0)
  {
    hide ArgValues, VarValues, Count;
    var heap, vars := k.Write(j, v).heap, k.Vars();
    ShapeVars(k, heap);
    VarsOk(k);
    CountAppend(ArgValues(k.heap, k.sbase, k.sp), VarValues(k.heap, k.base, vars), o);
    CountAppend(ArgValues(heap, k.sbase, k.sp), VarValues(heap, k.base, vars), o);
    ArgValuesWriteAny(k.heap, k.sbase, k.sp, j, v, o);
    VarValuesWriteAny(k.heap, k.base, vars, j, v, o);
  }

  lemma OwnedSplit(k: Stack, o: Obj)
    ensures Count(OwnedValues(k), o) == Count(FrameValues(k), o)
              + (if k.base > 0 && k.HasFrame() then Count(OwnedValues(k.Below()), o) else 0)
  {
    CountAppend(FrameValues(k), if k.base > 0 && k.HasFrame() then OwnedValues(k.Below()) else [], o);
  }

  lemma WriteBelow(k: Stack, j: nat, v: Value)
    requires k.base > 0 && LayoutOk(k) && j < k.sp && k.heap[j].Val?
    ensures k.Write(j, v).HasFrame() && k.Write(j, v).Cf() == k.Cf()
    ensures j < k.Below().sp ==> k.Write(j, v).Below() == k.Below().Write(j, v)
    ensures k.Write(j, v).Below() == k.Below().(heap := k.Write(j, v).heap)
  {
    ShapeLocal(k, k.Write(j, v).heap);
  }

  lemma WriteAbove(k: Stack, j: nat, v: Value)
    requires LayoutChain(k) && k.base > 0 && k.Below().sp <= j < k.sp && k.heap[j].Val?
    ensures OwnedValues(k.Write(j, v).Below()) == OwnedValues(k.Below())
  {
    WriteBelow(k, j, v);
    OwnedAgree(k.Below(), k.Write(j, v).heap);
  }

  lemma OwnsBelow(k: Stack, j: nat)
    requires k.base > 0 && LayoutOk(k) && LayoutChain(k.Below())
    ensures j < k.Below().sp ==> !OwnsHere(k, j) && Owns(k, j) == Owns(k.Below(), j)
    ensures j >= k.Below().sp ==> Owns(k, j) == OwnsHere(k, j)
  {
    if j >= k.Below().sp && Owns(k.Below(), j) { OwnsBound(k.Below(), j); }
  }

  /** Writing a value over another one exchanges the two in what the chain owns, provided
      the slot owns its value, and changes nothing else. */
  lemma {:induction false} OwnedWrite(k: Stack, j: nat, v: Value, o: Obj)
    requires LayoutChain(k) && j < k.sp && k.heap[j].Val?
    ensures Count(OwnedValues(k.Write(j, v)), o) + (if Owns(k, j) then Is(CellValue(k.heap[j]), o) else 0)
         == Count(OwnedValues(k), o) + (if Owns(k, j) then Is(v, o) else 0)
    decreases k.base
  {
    var k' := k.Write(j, v);
    FrameValuesWrite(k, j, v, o);
    OwnedSplit(k, o);
    OwnedSplit(k', o);
    if k.base > 0 {
      var b := k.Below();
      WriteBelow(k, j, v);
      OwnsBelow(k, j);
      if j < b.sp {
        OwnedWrite(b, j, v, o);
      } else {
        WriteAbove(k, j, v);
      }
    } else {
      assert Owns(k, j) == OwnsHere(k, j);
    }
  }

  /** Nothing about a chain depends on the cells from its stack pointer up. */
  lemma AgreeChain(k: Stack, heap: seq<Cell>)
    requires ChainOk(k) && k.sp <= |heap| && forall i :: 0 <= i < k.sp ==> heap[i] == k.heap[i]
    ensures var k' := k.(heap := heap);
      && ChainOk(k') && OwnedValues(k') == OwnedValues(k)
      && LimboObjects(k') == LimboObjects(k) && Calls(k') == Calls(k)
      && forall j: nat :: FreeSlot(k', j) == FreeSlot(k, j)
  {
    hide OwnedValues, LimboObjects, Calls, LinksOk;
    ShapeLayout(k, heap);
    ShapeLinks(k, heap);
    OwnedAgree(k, heap);
    forall j: nat ensures FreeSlot(k.(heap := heap), j) == FreeSlot(k, j) {
      ShapeOwns(k, heap, j);
    }
  }

  /** Each call that is still active has its frame in the heap, right below its registers. */
  lemma {:induction false} CallsInHeap(k: Stack, i: nat)
    requires LayoutChain(k) && i < |Calls(k)|
    ensures var c := Calls(k)[i];
      && CFREGS <= c.base <= k.base && c.base - CFREGS < |k.heap|
      && k.heap[c.base - CFREGS].Frame?
      && k.heap[c.base - CFREGS].cf.(limbo := []) == c.cf
    decreases i
  {
    hide LayoutOk;
    FirstCall(k);
    if i > 0 {
      CallsInHeap(k.Below(), i - 1);
    }
  }

  lemma FirstCall(k: Stack)
    requires LayoutChain(k) && Calls(k) != []
    ensures k.base > 0 && k.HasFrame() && LayoutChain(k.Below()) && k.Below().base < k.base && k.Below().heap == k.heap
    ensures Calls(k) == [ActiveCall(k.base, k.Cf().(limbo := []))] + Calls(k.Below())
  {
    hide DistinctVars, HoldsValues, OwnsHere, TableCells;
  }
}
