/** Leaving several calls at once, and where an exception or a return from inside a block goes. */
module Unwinding {
  import opened Values
  import opened ObjectStore
  import opened CallStack
  import opened Frames
  import opened MachineState
  import opened Instructions
  import opened LeavingCalls

  lemma {:induction false} CallerBase(k: Stack, n: nat)
    ensures Caller(k, n).base <= k.base
    ensures n > 0 && k.base > 0 && k.HasFrame() ==> Caller(k, n).base < k.base
    decreases n
  {
    if n > 0 && k.base > 0 && k.HasFrame() { CallerBase(k.Below(), n - 1); }
  }

  lemma {:induction false} CallerCalls(k: Stack, n: nat)
    requires ChainOk(k) && n <= |Calls(k)|
    ensures ChainOk(Caller(k, n)) && Calls(Caller(k, n)) == Calls(k)[n..]
    ensures Caller(k, n).heap == k.heap
    ensures n < |Calls(k)| ==>
      && Caller(k, n).base == Calls(k)[n].base > 0 && Caller(k, n).HasFrame()
      && Caller(k, n).Cf().(limbo := []) == Calls(k)[n].cf
    ensures n == |Calls(k)| ==> Caller(k, n).base == 0
    decreases n
  {
    hide LayoutOk, LinksOk;
    if n > 0 {
      assert LayoutChain(k) && LinkChain(k);
      assert Calls(k) == [ActiveCall(k.base, k.Cf().(limbo := []))] + Calls(k.Below());
      CallerCalls(k.Below(), n - 1);
    }
  }

  lemma SameBelowBelow(a: Stack, b: Stack)
    requires ChainOk(b) && SameBelow(a, b) && b.base > 0
    ensures a.HasFrame() && b.HasFrame() && a.Cf() == b.Cf() && SameBelow(a.Below(), b.Below())
  {
    FrameBelowSp(b);
  }

  lemma {:induction false} CallerSame(a: Stack, b: Stack, n: nat)
    requires ChainOk(b) && SameBelow(a, b)
    ensures SameBelow(Caller(a, n), Caller(b, n))
    decreases n
  {
    hide LayoutOk, LinksOk, SameBelow;
    if n > 0 && b.base > 0 {
      SameBelowBelow(a, b);
      assert LayoutChain(b) && LinkChain(b);
      CallerSame(a.Below(), b.Below(), n - 1);
    } else {
      assert a.base == b.base by { SameBelowBase(a, b); }
    }
  }

  lemma SameBelowBase(a: Stack, b: Stack)
    requires SameBelow(a, b)
    ensures a.base == b.base
  {
  }

  /** `unwind` arrives at the caller it was told to go to. It cleans up after every call on the
      way, and leaves the callers and everything in hand alone. */
  lemma {:induction false} UnwindOk(m: Machine, hand: seq<Value>, n: nat)
    requires InvWith(m, hand) && n <= |Calls(m.k)|
    ensures var m' := Unwind(m, Caller(m.k, n).base);
      && InvWith(m', hand) && SameRest(m, m')
      && SameBelow(m'.k, Caller(m.k, n)) && Calls(m'.k) == Calls(m.k)[n..]
    decreases n
  {
    hide ChainOk, Accounted, LimboOk, CallsOk, OwnedValues, LimboObjects, CleanCall, Leave, SameBelow;
    var target := Caller(m.k, n).base;
    CallerBase(m.k, n);
    if n == 0 {
      assert SameBelow(m.k, m.k) by { SameBelowSelf(m); }
    } else {
      LeaveCallOk(m, hand);
      var m1 := Leave(CleanCall(m));
      SameBelowBase(m1.k, m.k.Below());
      assert ChainOk(m.k.Below()) by { BelowOk(m.k); }
      CallerSame(m1.k, m.k.Below(), n - 1);
      SameBelowBase(Caller(m1.k, n - 1), Caller(m.k.Below(), n - 1));
      UnwindOk(m1, hand, n - 1);
      assert Unwind(m, target) == Unwind(m1, target);
      SameBelowTrans(Unwind(m1, target).k, Caller(m1.k, n - 1), Caller(m.k, n));
    }
  }

  lemma BelowOk(k: Stack)
    requires ChainOk(k) && k.base > 0
    ensures k.HasFrame() && ChainOk(k.Below())
  {
  }

  lemma SameBelowSelf(m: Machine)
    requires ChainOk(m.k)
    ensures SameBelow(m.k, m.k)
  {
    ValuesAbove(m.k);
  }

  lemma SameBelowTrans(a: Stack, b: Stack, c: Stack)
    requires SameBelow(a, b) && SameBelow(b, c)
    ensures SameBelow(a, c)
  {
  }

  // ---------------------------------------------------------------------------------------
  // Searching the call chain
  // ---------------------------------------------------------------------------------------

  /** A frame that the search for a handler passes by. */
  predicate Passes(cf: CallFrame, x: int) {
    !cf.f.native && !cf.mark.untry && (cf.mark.catcher.None? || x == XINTERNAL)
  }

  predicate Stops(cf: CallFrame) {
    cf.f.native || cf.mark.untry
  }

  /** The exception goes to the innermost call with a catcher, unless native code, an UNTRY
      block or the top level comes first, or it is an internal error. */
  lemma {:induction false} HandlerFound(k: Stack, x: int) returns (n: nat)
    requires ChainOk(k)
    ensures n <= |Calls(k)| && FindHandler(k, x).k == Caller(k, n)
    ensures forall i :: 0 <= i < n ==> Passes(Calls(k)[i].cf, x)
    ensures FindHandler(k, x).Found? <==>
              n < |Calls(k)| && !Stops(Calls(k)[n].cf) && Calls(k)[n].cf.mark.catcher.Some? && x != XINTERNAL
    ensures FindHandler(k, x).Boundary? <==> n == |Calls(k)| || Stops(Calls(k)[n].cf)
    decreases k.base
  {
    hide LayoutOk, LinksOk;
    if k.base > 0 {
      assert LayoutChain(k) && LinkChain(k) && k.HasFrame();
      assert Calls(k) == [ActiveCall(k.base, k.Cf().(limbo := []))] + Calls(k.Below());
      if Passes(k.Cf(), x) {
        var j := HandlerFound(k.Below(), x);
        n := j + 1;
      } else {
        n := 0;
      }
    } else {
      n := 0;
    }
  }

  /** From inside any nest of try blocks and catchers, the function frame is the innermost one
      that is no block, and its result goes where the result of each of the blocks goes. */
  lemma {:induction false} FunctionFrameFound(k: Stack) returns (n: nat)
    requires ChainOk(k) && k.base > 0
    ensures n < |Calls(k)| && FunctionFrame(k) == Caller(k, n)
    ensures !Calls(k)[n].cf.mark.InBlock() && forall i :: 0 <= i < n ==> Calls(k)[i].cf.mark.InBlock()
    ensures forall i :: 0 <= i <= n ==> Calls(k)[i].cf.result == Calls(k)[0].cf.result
    ensures !k.Cf().f.native ==> forall i :: 0 <= i <= n ==> !Calls(k)[i].cf.f.native
    decreases k.base
  {
    hide LayoutOk, DistinctVars, HoldsValues, Owns;
    assert LayoutChain(k) && LinkChain(k) && k.HasFrame() && LinksOk(k);
    assert Calls(k) == [ActiveCall(k.base, k.Cf().(limbo := []))] + Calls(k.Below());
    if k.Cf().mark.InBlock() {
      var j := FunctionFrameFound(k.Below());
      n := j + 1;
    } else {
      n := 0;
    }
  }
}
