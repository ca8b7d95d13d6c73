/** What the calls that are left by an exception own, and that exactly that is given up. */
module CutCalls {
  import opened Values
  import opened ObjectStore
  import opened CallStack
  import opened Frames
  import opened MachineState
  import opened Instructions
  import opened LeavingCalls
  import opened Unwinding

  /** What the running call owns: variables, limbo list and pending arguments, in the order in
      which they are given up when it is left. */
  function CallValues(k: Stack): seq<Value> {
    (if InNative(k) then [] else VarValues(k.heap, k.base, k.Vars()) + AsRefs(k.Cf().limbo))
    + (if k.sbase <= k.sp <= |k.heap| then ArgValues(k.heap, k.sbase, k.sp) else [])
  }

  /** What the first `n` calls of the chain own. */
  ghost function CutValues(k: Stack, n: nat): seq<Value>
    decreases n
  {
    if n == 0 || k.base == 0 || !k.HasFrame() then [] else CallValues(k) + CutValues(k.Below(), n - 1)
  }

  /** The top frame is where it should be, whatever the rest of the chain looks like. */
  predicate Framed(k: Stack) {
    && k.base > 0 && k.HasFrame() && k.HasTable()
    && k.Cf().rSp + CFREGS < k.base && k.Cf().cleantab == k.Cf().rSp
    && k.base <= k.sbase <= k.sp <= |k.heap|
  }

  lemma ChainFramed(k: Stack)
    requires ChainOk(k) && k.base > 0
    ensures Framed(k)
  {
  }

  /** What cleaning up after a call makes of the heap and the registers. */
  function Cleaned(k: Stack): Stack
    requires Framed(k)
  {
    (if InNative(k) then k else SetLimbo(CutClean(k, 0), [])).(sp := k.sbase)
  }

  /** Cleaning up after a call gives up what it owns, and does nothing else to the store. */
  lemma CleanCallIs(m: Machine)
    requires Framed(m.k)
    ensures CleanCall(m) == m.(k := Cleaned(m.k), st := Release(m.st, CallValues(m.k)), limboed := CleanCall(m).limboed)
    ensures CleanCall(m).limboed == if InNative(m.k) then m.limboed else m.limboed - (set o | o in m.k.Cf().limbo)
  {
    hide Release, VarValues;
    var args := ArgValues(m.k.heap, m.k.sbase, m.k.sp);
    if InNative(m.k) {
      assert [] + args == args;
    } else {
      var vars, limbo := VarValues(m.k.heap, m.k.base, m.k.Vars()), AsRefs(m.k.Cf().limbo);
      assert m.k.Vars()[0..] == m.k.Vars();
      var m1 := CleanVars(m, 0);
      assert m1.st == Release(m.st, vars) && m1.k == CutClean(m.k, 0) && m1.k.Cf() == m.k.Cf();
      var m2 := CleanLimbo(m1);
      assert m2.st == Release(m1.st, limbo) && m2.k == SetLimbo(m1.k, []);
      ArgValuesAgree(m.k.heap, m2.k.heap, m.k.sbase, m.k.sp);
      assert CleanCall(m).st == Release(m2.st, args);
      ReleaseAppend(m.st, vars, limbo);
      ReleaseAppend(m.st, vars + limbo, args);
    }
  }

  lemma CallValuesSame(a: Stack, b: Stack)
    requires ChainOk(b) && SameBelow(a, b)
    ensures CallValues(a) == CallValues(b)
  {
    hide LinkChain, LinksOk;
    ValuesAbove(b);
    ArgValuesAgree(a.heap, b.heap, b.sbase, b.sp);
    if b.base > 0 {
      FrameBelowSp(b);
      SameBelowBelow(a, b);
      assert LayoutOk(b);
      assert a.Vars() == b.Vars();
      VarValuesAgree(a.heap, b.heap, b.base, b.Vars());
    }
  }

  lemma {:induction false} CutValuesSame(a: Stack, b: Stack, n: nat)
    requires ChainOk(b) && SameBelow(a, b)
    ensures CutValues(a, n) == CutValues(b, n)
    decreases n
  {
    hide CallValues, LayoutOk, LinksOk, SameBelow;
    if n > 0 && b.base > 0 {
      CallValuesSame(a, b);
      SameBelowBelow(a, b);
      SameBelowBase(a, b);
      BelowOk(b);
      CutValuesSame(a.Below(), b.Below(), n - 1);
    } else {
      SameBelowBase(a, b);
    }
  }

  /** Unwinding gives up exactly what the calls that are left own, each reference once. */
  lemma {:induction false} UnwindReleases(m: Machine, hand: seq<Value>, n: nat)
    requires InvWith(m, hand) && n <= |Calls(m.k)|
    ensures Unwind(m, Caller(m.k, n).base).st == Release(m.st, CutValues(m.k, n))
    decreases n
  {
    hide ChainOk, Accounted, LimboOk, CallsOk, OwnedValues, LimboObjects, CleanCall, Leave, SameBelow, Disown,
         CallValues;
    var target := Caller(m.k, n).base;
    CallerBase(m.k, n);
    if n > 0 {
      LeaveCallOk(m, hand);
      CallReleases(m);
      var m1 := Leave(CleanCall(m));
      BelowOk(m.k);
      CallerSame(m1.k, m.k.Below(), n - 1);
      SameBelowBase(Caller(m1.k, n - 1), Caller(m.k.Below(), n - 1));
      SameBelowBase(m1.k, m.k.Below());
      UnwindReleases(m1, hand, n - 1);
      assert Unwind(m, target) == Unwind(m1, target);
      CutValuesSame(m1.k, m.k.Below(), n - 1);
      ReleaseAppend(m.st, CallValues(m.k), CutValues(m.k.Below(), n - 1));
    }
  }

  lemma CallReleases(m: Machine)
    requires ChainOk(m.k) && m.k.base > 0
    ensures Leave(CleanCall(m)).st == Release(m.st, CallValues(m.k))
  {
    hide CleanCall, Release, CallValues, Cleaned;
    ChainFramed(m.k);
    CleanCallIs(m);
  }

  /** What a chain owns is what its first `n` calls own and what the rest owns. */
  lemma {:induction false} CutSplit(k: Stack, n: nat, o: Obj)
    requires ChainOk(k) && n <= |Calls(k)|
    ensures Count(OwnedValues(k), o) + Count(AsRefs(LimboObjects(k)), o)
         == Count(CutValues(k, n), o)
            + Count(OwnedValues(Caller(k, n)), o) + Count(AsRefs(LimboObjects(Caller(k, n))), o)
    decreases n
  {
    hide LayoutOk, LinksOk, FrameValues, CallValues, Count;
    if n > 0 {
      assert Calls(k) == [ActiveCall(k.base, k.Cf().(limbo := []))] + Calls(k.Below());
      BelowOk(k);
      CutSplit(k.Below(), n - 1, o);
      CallSplit(k, o);
      CountAppend(CallValues(k), CutValues(k.Below(), n - 1), o);
    } else {
      CountNone(o);
    }
  }

  lemma CountNone(o: Obj)
    ensures Count([], o) == 0
  {
  }

  lemma CallSplit(k: Stack, o: Obj)
    requires ChainOk(k) && k.base > 0
    ensures k.HasFrame()
    ensures Count(OwnedValues(k), o) + Count(AsRefs(LimboObjects(k)), o)
         == Count(CallValues(k), o)
            + Count(OwnedValues(k.Below()), o) + Count(AsRefs(LimboObjects(k.Below())), o)
  {
    hide LayoutChain, LinkChain, Count, VarValues, ArgValues;
    FrameBelowSp(k);
    OwnedSplit(k, o);
    var vars, args := VarValues(k.heap, k.base, k.Vars()), ArgValues(k.heap, k.sbase, k.sp);
    var limbo := AsRefs(k.Cf().limbo);
    CountAppend(args, vars, o);
    AsRefsAppend(k.Cf().limbo, LimboObjects(k.Below()));
    CountAppend(limbo, AsRefs(LimboObjects(k.Below())), o);
    if InNative(k) {
      assert vars == [] && limbo == [] by { NoVars(k); }
      CountNone(o);
      assert [] + args == args;
    } else {
      CountAppend(vars, limbo, o);
      CountAppend(vars + limbo, args, o);
    }
  }

  lemma NoVars(k: Stack)
    requires k.Vars() == []
    ensures VarValues(k.heap, k.base, k.Vars()) == []
  {
  }
}
