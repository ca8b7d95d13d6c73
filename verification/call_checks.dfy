/** Which calls enter a function, and what the function finds then (`get_function`, `check_args`,
    `call_f` and `eel_call` in e_vm.c). */
module CallChecks {
  import opened Values
  import opened ObjectStore
  import opened CallStack
  import opened Frames
  import opened MachineState
  import opened CallLinks
  import opened Instructions
  import opened NativeCode
  import opened Safety
  import opened NativeSteps
  import opened Runs
  import opened CallTheorems
  import opened DataFlow

  // ---------------------------------------------------------------------------------------
  // Numbers of arguments
  // ---------------------------------------------------------------------------------------

  /** `n` arguments are `k` tuples of `size`. */
  predicate AreTuples(n: int, size: nat, k: nat) {
    n == k * size
  }

  ghost predicate Tuples(n: int, size: nat) {
    exists k: nat :: AreTuples(n, size, k)
  }

  /** `f` may be called with `n` arguments: the required ones are there, and the others are either some of
      the optional ones, or all of these and any number of tuples. */
  ghost predicate Accepts(f: Function, n: nat) {
    f.reqargs <= n && (n <= f.reqargs + f.optargs || (f.tupargs > 0 && Tuples(n - f.reqargs - f.optargs, f.tupargs)))
  }

  /** The exception for a number of arguments that is not accepted. */
  ghost predicate Rejects(f: Function, n: nat, x: int) {
    && (n < f.reqargs ==> x == 24)
    && (n > f.reqargs + f.optargs && f.tupargs == 0 ==> x == 25)
    && (n > f.reqargs + f.optargs && f.tupargs > 0 ==> x == 26)
  }

  lemma ArgumentsChecked(f: Function, n: nat)
    ensures Accepts(f, n) ==> CheckArgs(f, n) == 0
    ensures !Accepts(f, n) ==> CheckArgs(f, n) != 0 && Rejects(f, n, CheckArgs(f, n))
  {
    if f.tupargs > 0 && n >= f.reqargs + f.optargs { TuplesIff(n - f.reqargs - f.optargs, f.tupargs); }
  }

  lemma TuplesIff(n: nat, size: nat)
    requires size > 0
    ensures Tuples(n, size) <==> n % size == 0
  {
    if n % size == 0 {
      assert AreTuples(n, size, n / size);
    }
    if Tuples(n, size) {
      var k: nat :| AreTuples(n, size, k);
      Multiple(k, size);
    }
  }

  lemma Multiple(k: nat, size: nat)
    requires size > 0
    ensures (k * size) % size == 0
  {
    var q, r := k * size / size, (k * size) % size;
    assert size * (k - q) == r;
    AtLeast(size, k - q);
  }

  lemma AtLeast(size: int, t: int)
    requires size > 0
    ensures t >= 1 ==> size * t >= size
    ensures t <= -1 ==> size * t <= -size
  {
  }

  // ---------------------------------------------------------------------------------------
  // Entering
  // ---------------------------------------------------------------------------------------

  /** `f` has been entered from `m`: it has the arguments that were pushed, in their order, it begins with
      its first instruction, and its result goes to `result`. A native function has a place for a
      result that nobody wants. */
  ghost predicate Entered(m: Machine, r: Outcome, f: Function, result: int) {
    && r.Continue? && r.m.k.HasFrame() && r.m.next == m.next + 1
    && var cf := r.m.k.Cf();
    && cf.f == f && cf.serial == m.next && cf.rBase == m.k.base && cf.argc == |Arguments(m.k)|
    && (forall n :: 0 <= n < cf.argc ==> RegValue(r.m.k.heap, cf.argv + n) == Arguments(m.k)[n])
    && (!f.native ==> r.m.k.pc == 0)
    && cf.result == (if f.native then if result >= 0 then result else r.m.k.base else if f.results then result else -1)
    && Calls(r.m.k) == [ActiveCall(r.m.k.base, cf)] + Calls(m.k)
  }

  lemma EnteredBy(m: Machine, f: Function, result: int, levels: nat)
    requires Inv(m) && CanPush(m.k, f, result, PLAIN)
    ensures Entered(m, Continue(Enter(m, f, result, levels, PLAIN)), f, result)
  {
    hide LayoutChain, LinkChain, Accounted, LimboOk, CallsOk, Calls, OwnedValues, LimboObjects, FreeSlot,
         WellFormedFunction, MarkFits, PushFrame, Arguments;
    ValuesAbove(m.k);
    ArgumentsAre(m.k);
    EnterButLinks(m, f, result, levels, PLAIN);
    PushFrameAgree(m.k, f, result, UvBase(m.k.heap, m.k.base, levels), m.next, PLAIN);
    PushedBase(m.k, f, result, UvBase(m.k.heap, m.k.base, levels), m.next);
  }

  lemma PushedBase(k: Stack, f: Function, result: int, up: nat, serial: nat)
    requires k.sbase <= k.sp <= |k.heap| && |k.heap| > 0
    ensures f.native && result < 0 ==> ResultSlot(k, f, result) == PushFrame(k, f, result, up, serial, PLAIN).base
  {
  }

  lemma PassedIs(m: Machine, f: Function)
    requires ChainOk(m.k)
    ensures PassedCode(m, f) == CheckArgs(f, |Arguments(m.k)|)
  {
    hide CheckArgs;
    ValuesAbove(m.k);
    ArgumentsAre(m.k);
  }

  /** CALL and CALLR. A value that is no function cannot be called; the number of arguments must be one
      that the function accepts; CALLR needs a function that has results; and then the function is
      entered, and in no other case. */
  lemma CallChecked(m: Machine, i: Instr)
    requires Inv(m) && !InNative(m.k) && CallCoded(m, i)
    ensures var v, n, m0, r := m.Reg(i.a), |Arguments(m.k)|, Advance(m, if i.Call? then 2 else 3), Exec(m, i);
      && (v.Ref? ==> r == ThrowCode(m0, 39))
      && (!v.Ref? && !v.Callable? ==> r == ThrowCode(m0, 32))
      && (v.Callable? && !Accepts(v.f, n) ==> exists x :: Rejects(v.f, n, x) && r == ThrowCode(m0, x))
      && (v.Callable? && Accepts(v.f, n) && i.CallR? && !v.f.results ==> r == ThrowCode(m0, 27))
      && (v.Callable? && Accepts(v.f, n) && (i.CallR? ==> v.f.results) ==>
            Entered(m, r, v.f, if i.Call? then -1 else m.k.base + i.b))
  {
    hide ChainOk, Accounted, LimboOk, CallsOk, Calls, OwnedValues, LimboObjects, Exec, Enter, ThrowCode, CheckArgs,
         Accepts, Rejects, Arguments, WellFormedFunction, Entered;
    var v, n := m.Reg(i.a), |Arguments(m.k)|;
    var m0 := Advance(m, Size(i));
    AdvanceSame(m, Size(i));
    ArgumentsSame(m.k, m0.k);
    CallRuns(m, i);
    if v.Callable? {
      PassedIs(m0, v.f);
      ArgumentsChecked(v.f, n);
      if Accepts(v.f, n) && (i.CallR? ==> v.f.results) {
        var result := if i.Call? then -1 else m.k.base + i.b;
        if i.CallR? { TempIsFree(m0, i.b); }
        CallPushes(m0, v.f, result);
        EnteredBy(m0, v.f, result, 0);
        EnteredSame(m, m0, Continue(Enter(m0, v.f, result, 0, PLAIN)), v.f, result);
      }
    }
  }

  lemma CallRuns(m: Machine, i: Instr)
    requires !InNative(m.k) && (i.Call? || i.CallR?)
    ensures var m0, v := Advance(m, Size(i)), m.Reg(i.a);
      && Exec(m, i) == CallValue(m0, v, if i.Call? then -1 else m.k.base + i.b)
      && Size(i) == (if i.Call? then 2 else 3) && forall a: nat :: m0.Reg(a) == m.Reg(a)
  {
    hide CallValue;
  }

  lemma CallPushes(m: Machine, f: Function, result: int)
    requires Inv(m) && !InNative(m.k) && WellFormedFunction(f)
    requires result == -1 || (result >= 0 && FreeSlot(m.k, result))
    ensures CanPush(m.k, f, result, PLAIN)
  {
    hide Accounted, LimboOk, CallsOk, Calls, OwnedValues, LimboObjects, FreeSlot, WellFormedFunction, LayoutChain,
         LinkChain;
  }

  lemma EnteredSame(m: Machine, m0: Machine, r: Outcome, f: Function, result: int)
    requires Entered(m0, r, f, result)
    requires m0 == m.(k := m.k.(pc := m0.k.pc)) && Arguments(m0.k) == Arguments(m.k) && Calls(m0.k) == Calls(m.k)
    ensures Entered(m, r, f, result)
  {
    hide Calls, Arguments;
  }

  /** CCALL and CCALLR take the number of arguments on trust. */
  lemma ConstantCalled(m: Machine, i: Instr)
    requires Inv(m) && CanExecute(m, i) && (i.CCall? || i.CCallR?)
    ensures var r := Exec(m, i);
      && (i.CCallR? && !i.f.results ==> r == ThrowCode(Advance(m, 5), 27))
      && (i.CCall? || i.f.results ==> Entered(m, r, i.f, if i.CCall? then -1 else m.k.base + i.b))
  {
    hide ChainOk, Accounted, LimboOk, CallsOk, Calls, OwnedValues, LimboObjects, Enter, ThrowCode, Arguments,
         WellFormedFunction, Entered;
    var m0, result := Advance(m, Size(i)), if i.CCall? then -1 else m.k.base + i.b;
    AdvanceSame(m, Size(i));
    ArgumentsSame(m.k, m0.k);
    if i.CCallR? { TempIsFree(m0, i.b); }
    if i.CCall? || i.f.results {
      var levels := if i.f.native then 0 else i.a;
      CallPushes(m0, i.f, result);
      EnteredBy(m0, i.f, result, levels);
      EnteredSame(m, m0, Continue(Enter(m0, i.f, result, levels, PLAIN)), i.f, result);
    }
  }

  /** `eel_call` of an EEL function, from whatever frame `base` is at. Register 0 of that frame says
      whether a result is wanted, and is where it goes. */
  lemma InvokeChecked(m: Machine, f: Function)
    requires Inv(m) && WellFormedFunction(f) && !f.native && (m.Reg(0) != Nil ==> FreeSlot(m.k, m.k.base))
    ensures var n, r := |Arguments(m.k)|, InvokeFunction(m, f);
      && (!Accepts(f, n) ==> r.Exit? && Rejects(f, n, r.code) && r.m.Reg(0) == Nil && Arguments(r.m.k) == [])
      && (Accepts(f, n) && m.Reg(0) != Nil && !f.results ==> r == Exit(27, m))
      && (Accepts(f, n) && (m.Reg(0) != Nil ==> f.results) ==>
            Entered(m, r, f, if m.Reg(0) != Nil then m.k.base else -1) && r.m.exception == Nil)
  {
    hide ChainOk, Accounted, LimboOk, CallsOk, Calls, OwnedValues, LimboObjects, Enter, CheckArgs, Accepts, Rejects,
         Arguments, WellFormedFunction, Entered, FreeSlot, Release;
    var n, result := |Arguments(m.k)|, if m.Reg(0) != Nil then m.k.base else -1;
    PassedIs(m, f);
    ArgumentsChecked(f, n);
    if !Accepts(f, n) {
      ResetMeans(m);
    } else if m.Reg(0) != Nil ==> f.results {
      InvokePushes(m, f, result);
      EnteredBy(m, f, result, 0);
      EnteredKept(m, Enter(m, f, result, 0, PLAIN), f, result);
    }
  }

  lemma InvokePushes(m: Machine, f: Function, result: int)
    requires Inv(m) && WellFormedFunction(f) && !f.native && (result == -1 || (result >= 0 && FreeSlot(m.k, result)))
    ensures CanPush(m.k, f, result, PLAIN)
  {
    hide Accounted, LimboOk, CallsOk, Calls, OwnedValues, LimboObjects, FreeSlot, WellFormedFunction, LayoutChain,
         LinkChain;
  }

  lemma EnteredKept(m: Machine, m': Machine, f: Function, result: int)
    requires Entered(m, Continue(m'), f, result)
    ensures Entered(m, Continue(SetException(m', Nil)), f, result) && SetException(m', Nil).exception == Nil
  {
    hide Calls, Arguments, Release;
  }

  /** `reset_args`: no arguments, and nil in register 0, so that no result is wanted. */
  lemma ResetMeans(m: Machine)
    requires Inv(m)
    ensures var m' := ResetArgs(m);
      && Arguments(m'.k) == [] && m'.Reg(0) == Nil && Calls(m'.k) == Calls(m.k)
      && (m'.k.base, m'.k.sbase, m'.k.sp, m'.k.pc) == (m.k.base, m.k.sbase, m.k.sbase, m.k.pc)
  {
    hide Accounted, LimboOk, CallsOk, Calls, OwnedValues, LimboObjects, LayoutChain, LinkChain, ClearArgs;
    ValuesAbove(m.k);
    ArgsCleared(m);
    ResetOk(m);
    FirstCell(m.k);
  }
}
