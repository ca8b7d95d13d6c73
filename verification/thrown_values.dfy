/** What becomes of a thrown value, or of an exception that an instruction raises, from the value to
    the call that handles it (THROW, `eel__throw` and `eel__scheduler` in e_vm.c). */
module ThrownValues {
  import opened Values
  import opened ObjectStore
  import opened CallStack
  import opened Frames
  import opened MachineState
  import opened CallLinks
  import opened Instructions
  import opened NativeCode
  import opened Safety
  import opened NativeSteps
  import opened Runs
  import opened ExceptionTheorems

  /** The exception does not get past this call: it is native code, an UNTRY block, or has a catcher. */
  predicate Decides(cf: CallFrame) {
    cf.f.native || cf.mark.untry || cf.mark.catcher.Some?
  }

  /** Call `n` is the innermost one that decides. If it has a catcher then that runs, and its first
      variable is the exception. Otherwise, or if there is no such call, the VM returns to native code
      with `code`. */
  ghost predicate Caught(m: Machine, n: nat, code: int, r: Outcome) {
    && n <= |Calls(m.k)| && (forall i :: 0 <= i < n ==> !Decides(Calls(m.k)[i].cf))
    && if n < |Calls(m.k)| && !Calls(m.k)[n].cf.f.native && !Calls(m.k)[n].cf.mark.untry
       then Handled(m, n, r.m) && r.Continue?
       else Unhandled(m, code, n, r) && (n < |Calls(m.k)| ==> Decides(Calls(m.k)[n].cf))
  }

  /** No catcher runs, not even the innermost: call `n` is the innermost one that is native code or an
      UNTRY block. */
  ghost predicate NeverCaught(m: Machine, n: nat, code: int, r: Outcome) {
    && n <= |Calls(m.k)|
    && (forall i :: 0 <= i < n ==> !Calls(m.k)[i].cf.f.native && !Calls(m.k)[i].cf.mark.untry)
    && (n < |Calls(m.k)| ==> Calls(m.k)[n].cf.f.native || Calls(m.k)[n].cf.mark.untry)
    && Unhandled(m, code, n, r)
  }

  lemma CaughtOrNot(m: Machine, x: int) returns (n: nat)
    requires Inv(m) && !InNative(m.k)
    ensures x != 9 ==> Caught(m, n, x, HandleX(m, x))
    ensures x == 9 ==> NeverCaught(m, n, x, HandleX(m, x))
  {
    hide Inv, Calls, HandleX, Handled, Unhandled;
    n := ExceptionGoes(m, x);
  }

  /** The exception has been raised by an instruction of `m`, and nothing else has happened yet. */
  ghost predicate Raised(m: Machine, v: Value, mx: Machine) {
    && Inv(mx) && !InNative(mx.k) && Calls(mx.k) == Calls(m.k) && mx.next == m.next && mx.exception == v
    && mx.k == m.k.(pc := mx.k.pc) && (mx.statics, mx.host, mx.limboed) == (m.statics, m.host, m.limboed)
  }

  /** THROW. Nil, 0 and 1 just go on with the next instruction; 3 ends the run of the interpreter, and 4
      returns from the function. Any other integer is an exception with that code, and any other
      value, an object among them, one with code 6: a catcher gets it, unless the code is 9. */
  lemma ThrownGoes(m: Machine, a: nat) returns (mx: Machine, n: nat)
    requires Inv(m) && !InNative(m.k) && ThrowCoded(m, a)
    ensures Raised(m, m.Reg(a), mx) && mx.k.pc == m.k.pc + 2
    ensures var v, r := m.Reg(a), Exec(m, Throw(a));
      && (v in {Nil, Integer(0), Integer(1)} ==> r == Continue(mx))
      && (v == Integer(3) ==> r == Exit(3, mx))
      && (v == Integer(4) ==> r == ReturnX(mx))
      && (v == Integer(9) ==> NeverCaught(mx, n, 9, r))
      && (v.Integer? && v.i !in {0, 1, 3, 4, 9} ==> Caught(mx, n, v.i, r))
      && (!v.Nil? && !v.Integer? ==> Caught(mx, n, 6, r))
  {
    hide ChainOk, Accounted, LimboOk, CallsOk, Calls, OwnedValues, LimboObjects, HandleX, ReturnX, Caught, NeverCaught,
         Own, Release;
    mx := ThrowRaises(m, a);
    n := CaughtOrNot(mx, ExceptionCode(m.Reg(a)));
  }

  /** An exception that an instruction raises, with a code of its own. */
  lemma CodeGoes(m: Machine, x: int) returns (mx: Machine, n: nat)
    requires Inv(m) && !InNative(m.k) && x !in {0, 1, 3, 4, 9}
    ensures Raised(m, Integer(x), mx) && mx.k == m.k
    ensures Caught(mx, n, x, ThrowCode(m, x))
  {
    hide ChainOk, Accounted, LimboOk, CallsOk, Calls, OwnedValues, LimboObjects, HandleX, ReturnX, Caught, Release;
    PlainHand(m, [], Integer(x));
    SetExceptionKeeps(m, [], Integer(x));
    mx := SetException(m, Integer(x));
    n := CaughtOrNot(mx, x);
  }

  /** An exception that a native function returns, from its own frame, is raised in its caller, whose
      arguments it has consumed. */
  lemma NativeFailureGoes(m: Machine, call: ActiveCall, x: int, i: nat) returns (mx: Machine, n: nat)
    requires Inv(m) && call in Calls(m.k) && call.cf.f.native && m.k.base == call.base && x !in {0, 1, 3, 4, 9}
    ensures Inv(mx) && !InNative(mx.k) && Calls(mx.k) == Calls(m.k)[1..] && mx.exception == Integer(x)
    ensures (mx.k.base, mx.k.sbase, mx.k.sp, mx.k.pc)
            == (call.cf.rBase, call.cf.rSbase, call.cf.rSbase, call.cf.rPc)
    ensures Caught(mx, n, x, FinishNative(m, call, x, i))
  {
    hide ChainOk, Accounted, LimboOk, CallsOk, Calls, OwnedValues, LimboObjects, Landing, ThrowCode, LeavesNothing,
         Caught;
    SameCall(m.k, call);
    OwnFrameFits(m, x);
    Lands(m, x);
    var m1 := Landing(m, x);
    HasCaller(m.k, call);
    CallsNative(m.k.Below(), m1.k);
    NativeCounter(m.k);
    mx, n := CodeGoes(m1, x);
  }

  /** An exception from an UNTRY block goes to native code at once, whatever catchers there are
      further out, and leaves the block as it is. */
  lemma UntryExposes(m: Machine, f: Function) returns (m1: Machine)
    requires Inv(m) && CanExecute(m, Untry(f))
    ensures Exec(m, Untry(f)) == Continue(m1) && Inv(m1) && !InNative(m1.k) && m1.k.pc == 0
    ensures Calls(m1.k) == [ActiveCall(m1.k.base, m1.k.Cf())] + Calls(m.k) && m1.k.Cf().f == f
    ensures m1.k.Cf().rPc == m.k.pc + 3 && m1.k.Cf().rBase == m.k.base && m1.k.Cf().result == m.k.Cf().result
    ensures forall x: int :: x !in {0, 1, 3, 4} ==> Unhandled(SetException(m1, Integer(x)), x, 0, ThrowCode(m1, x))
  {
    hide ChainOk, Accounted, LimboOk, CallsOk, Calls, OwnedValues, LimboObjects, FreeSlot, WellFormedFunction,
         CanEnter, Owns, Count, Roots, Enter, HandlerFits, BlockFits, ThrowCode, Unhandled, SetException;
    var i := Untry(f);
    AdvanceControl(m, Size(i), i);
    AdvanceSame(m, Size(i));
    var m0 := Advance(m, Size(i));
    var mark := Mark(true, false, true, None);
    BlockEnters(m0, f, mark);
    EnterFrame(m0, f, m0.k.Cf().result, 0, mark);
    EnterOk(m0, [], f, m0.k.Cf().result, 0, mark);
    assert !f.native by { BlockNotNative(m, f); }
    BlockResult(m0, f, mark);
    m1 := Enter(m0, f, m0.k.Cf().result, 0, mark);
    forall x: int | x !in {0, 1, 3, 4} ensures Unhandled(SetException(m1, Integer(x)), x, 0, ThrowCode(m1, x)) {
      StoppedHere(m1, x);
    }
  }

  lemma BlockResult(m: Machine, f: Function, mark: Mark)
    requires ChainOk(m.k) && !InNative(m.k) && BlockFits(m, f)
    ensures ResultSlot(m.k, f, m.k.Cf().result) == m.k.Cf().result
  {
    assert LinksOk(m.k);
  }

  lemma StoppedHere(m: Machine, x: int)
    requires Inv(m) && !InNative(m.k) && x !in {0, 1, 3, 4} && m.k.Cf().mark.untry
    requires Calls(m.k) != [] && Calls(m.k)[0] == ActiveCall(m.k.base, m.k.Cf())
    ensures Unhandled(SetException(m, Integer(x)), x, 0, ThrowCode(m, x))
  {
    hide ChainOk, Accounted, LimboOk, CallsOk, Calls, OwnedValues, LimboObjects, HandleX, ReturnX, Release, Unhandled;
    PlainHand(m, [], Integer(x));
    SetExceptionKeeps(m, [], Integer(x));
    var n := CaughtOrNot(SetException(m, Integer(x)), x);
    assert Decides(Calls(m.k)[0].cf);
    assert n == 0;
  }
}
