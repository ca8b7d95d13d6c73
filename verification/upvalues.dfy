/** Entering and leaving calls, and what the upvalue links of the active calls lead to. */
module CallLinks {
  import opened Values
  import opened ObjectStore
  import opened CallStack
  import opened Frames
  import opened MachineState

  /** `UvBase` started at the call `calls[i]` stays among the active calls, and the call that it
      reaches after `n` links runs the n-th lexical ancestor of the function of `calls[i]`. */
  lemma {:induction false} UpvaluesReachAncestor(k: Stack, next: nat, i: nat, n: nat) returns (j: nat)
    requires ChainOk(k) && CallsOk(Calls(k), next)
    requires i < |Calls(k)| && n <= Calls(k)[i].cf.f.need
    ensures i <= j < |Calls(k)| && (n > 0 ==> i < j)
    ensures UvBase(k.heap, Calls(k)[i].base, n) == Calls(k)[j].base
    ensures Ancestor(Calls(k)[i].cf.f, n) == Some(Calls(k)[j].cf.f)
    decreases n
  {
    hide LayoutOk, LinksOk;
    var calls := Calls(k);
    CallsInHeap(k, i);
    if n == 0 {
      j := i;
    } else {
      FunctionsOk(k, i);
      assert UplinkOk(calls, i);
      var p :| i < p < |calls| && calls[p].base == calls[i].cf.upvalues
               && calls[i].cf.f.parent == Some(calls[p].cf.f);
      j := UpvaluesReachAncestor(k, next, p, n - 1);
    }
  }

  lemma {:induction false} FunctionsOk(k: Stack, i: nat)
    requires ChainOk(k) && i < |Calls(k)|
    ensures WellFormedFunction(Calls(k)[i].cf.f)
    decreases i
  {
    if i > 0 {
      assert Calls(k)[i] == Calls(k.Below())[i - 1];
      FunctionsOk(k.Below(), i - 1);
    }
  }

  /** A call may be made: its result slot is free, and if the callee uses upvalues then
      following `levels` links from the caller leads to a call of its lexical parent. */
  ghost predicate CanEnter(m: Machine, f: Function, result: int, levels: nat, mark: Mark) {
    && CanPush(m.k, f, result, mark)
    && (f.need > 0 ==> ParentAt(Calls(m.k), UvBase(m.k.heap, m.k.base, levels), f))
  }

  /** The call with its registers at `base` runs the lexical parent of `f`. */
  ghost predicate ParentAt(calls: seq<ActiveCall>, base: nat, f: Function) {
    exists j :: 0 <= j < |calls| && calls[j].base == base && f.parent == Some(calls[j].cf.f)
  }

  lemma CallsCons(c: ActiveCall, calls: seq<ActiveCall>, next: nat)
    requires CallsOk(calls, next) && c.cf.serial == next
    requires forall i :: 0 <= i < |calls| ==> calls[i].base < c.base
    requires c.cf.f.need > 0 ==> ParentAt(calls, c.cf.upvalues, c.cf.f)
    ensures CallsOk([c] + calls, next + 1)
  {
    var all := [c] + calls;
    forall i | 0 <= i < |all| ensures UplinkOk(all, i) {
      if i == 0 {
        if c.cf.f.need > 0 {
          var j :| 0 <= j < |calls| && calls[j].base == c.cf.upvalues && c.cf.f.parent == Some(calls[j].cf.f);
          assert all[j + 1] == calls[j];
        }
      } else {
        assert UplinkOk(calls, i - 1) && all[i] == calls[i - 1];
        if all[i].cf.f.need > 0 {
          var j :| i - 1 < j < |calls| && calls[j].base == all[i].cf.upvalues
                   && all[i].cf.f.parent == Some(calls[j].cf.f);
          assert all[j + 1] == calls[j];
        }
      }
    }
  }

  lemma CallsTail(calls: seq<ActiveCall>, n: nat, next: nat)
    requires CallsOk(calls, next) && n <= |calls|
    ensures CallsOk(calls[n..], next)
  {
    var tail := calls[n..];
    forall i | 0 <= i < |tail| ensures UplinkOk(tail, i) {
      assert UplinkOk(calls, i + n);
      if tail[i].cf.f.need > 0 {
        var j :| i + n < j < |calls| && calls[j].base == tail[i].cf.upvalues
                 && tail[i].cf.f.parent == Some(calls[j].cf.f);
        assert tail[j - n] == calls[j];
      }
    }
  }

  lemma {:induction false} CallBases(k: Stack, i: nat)
    requires ChainOk(k) && i < |Calls(k)|
    ensures Calls(k)[i].base <= k.base <= k.sp
    decreases i
  {
    if i > 0 {
      CallBases(k.Below(), i - 1);
    }
  }

  lemma CallsPushed(k: Stack, k': Stack, cf: CallFrame, next: nat)
    requires ChainOk(k) && CallsOk(Calls(k), next) && cf.serial == next && k'.base > k.base
    requires Calls(k') == [ActiveCall(k'.base, cf)] + Calls(k)
    requires cf.f.need > 0 ==> ParentAt(Calls(k), cf.upvalues, cf.f)
    ensures CallsOk(Calls(k'), next + 1)
  {
    forall i | 0 <= i < |Calls(k)| ensures Calls(k)[i].base < k'.base {
      CallBases(k, i);
    }
    CallsCons(ActiveCall(k'.base, cf), Calls(k), next);
  }

  lemma EnterFrame(m: Machine, f: Function, result: int, levels: nat, mark: Mark)
    requires ChainOk(m.k) && CallsOk(Calls(m.k), m.next) && CanEnter(m, f, result, levels, mark)
    ensures var m' := Enter(m, f, result, levels, mark);
      && m'.k.base > m.k.base && m'.k.HasFrame()
      && m'.k.Cf() == NewFrame(m.k, f, result, UvBase(m.k.heap, m.k.base, levels), m.next, mark)
      && m'.k.Below() == m.k.(heap := m'.k.heap)
      && m'.k.Vars() == [] && m'.k.sp == m'.k.sbase
      && m'.k.pc == (if f.native then m.k.pc else 0)
      && m.k.sp <= |m'.k.heap| && (forall i :: 0 <= i < m.k.sp ==> m'.k.heap[i] == m.k.heap[i])
  {
    ValuesAbove(m.k);
    PushFrameAgree(m.k, f, result, UvBase(m.k.heap, m.k.base, levels), m.next, mark);
  }

  /** A call, wherever its upvalue link leads. */
  lemma EnterButLinks(m: Machine, f: Function, result: int, levels: nat, mark: Mark)
    requires Inv(m) && CanPush(m.k, f, result, mark)
    ensures var m' := Enter(m, f, result, levels, mark);
      && InvButLinks(m') && m'.k.base > m.k.base && m'.k.HasFrame() && m' == m.(k := m'.k, next := m.next + 1)
      && m'.k.Cf() == NewFrame(m.k, f, result, UvBase(m.k.heap, m.k.base, levels), m.next, mark)
      && Calls(m'.k) == [ActiveCall(m'.k.base, m'.k.Cf())] + Calls(m.k)
  {
    hide LayoutChain, LinkChain, Accounted, Calls, OwnedValues, LimboObjects, UplinkOk;
    ValuesAbove(m.k);
    var up := UvBase(m.k.heap, m.k.base, levels);
    PushFrameAgree(m.k, f, result, up, m.next, mark);
    TopSerial(m.k, m.next);
    PushFrameOk(m.k, f, result, up, m.next, mark);
    var m' := Enter(m, f, result, levels, mark);
    assert Roots(m') == Roots(m) && Roots(m) + [] == Roots(m);
    forall i | 0 <= i < |Calls(m.k)| ensures Calls(m.k)[i].base < m'.k.base { CallBases(m.k, i); }
  }

  lemma PushedOk(m: Machine, hand: seq<Value>, k': Stack, cf: CallFrame)
    requires InvWith(m, hand) && cf.serial == m.next && k'.base > m.k.base
    requires ChainOk(k') && OwnedValues(k') == OwnedValues(m.k) && LimboObjects(k') == LimboObjects(m.k)
    requires Calls(k') == [ActiveCall(k'.base, cf)] + Calls(m.k)
    requires cf.f.need > 0 ==> ParentAt(Calls(m.k), cf.upvalues, cf.f)
    ensures InvWith(m.(k := k', next := m.next + 1), hand)
  {
    CallsPushed(m.k, k', cf, m.next);
    Rebalance(m, hand, m.(k := k', next := m.next + 1), hand);
  }

  /** The references in hand, and everything the caller owns, are untouched by a call. */
  lemma EnterOk(m: Machine, hand: seq<Value>, f: Function, result: int, levels: nat, mark: Mark)
    requires InvWith(m, hand) && CanEnter(m, f, result, levels, mark)
    ensures var m' := Enter(m, f, result, levels, mark);
      && InvWith(m', hand)
      && Calls(m'.k) == [ActiveCall(m'.k.base, m'.k.Cf())] + Calls(m.k)
      && m' == m.(k := m'.k, next := m.next + 1)
  {
    EnterFrame(m, f, result, levels, mark);
    var up := UvBase(m.k.heap, m.k.base, levels);
    ValuesAbove(m.k);
    var m' := Enter(m, f, result, levels, mark);
    assert m' == m.(k := m'.k, next := m.next + 1);
    TopSerial(m.k, m.next);
    PushFrameOk(m.k, f, result, up, m.next, mark);
    PushedOk(m, hand, m'.k, NewFrame(m.k, f, result, up, m.next, mark));
    assert InvWith(m', hand);
  }

  lemma TopSerial(k: Stack, next: nat)
    requires ChainOk(k) && CallsOk(Calls(k), next)
    ensures k.base > 0 ==> k.HasFrame() && k.Cf().serial < next
  {
    if k.base > 0 { assert Calls(k)[0].cf.serial < next; }
  }

  lemma LeaveOk(m: Machine, hand: seq<Value>)
    requires InvWith(m, hand) && m.k.base > 0 && m.k.HasFrame()
    requires m.k.sp == m.k.sbase && m.k.Vars() == [] && m.k.Cf().limbo == []
    ensures InvWith(Leave(m), hand)
    ensures Leave(m).k == m.k.Below() && Calls(m.k) != [] && Calls(Leave(m).k) == Calls(m.k)[1..]
    ensures Leave(m).next == m.next
  {
    hide ChainOk, Accounted, Count;
    PopOk(m.k);
    CallsTail(Calls(m.k), 1, m.next);
    assert Calls(m.k)[1..] == Calls(m.k.Below());
    Rebalance(m, hand, Leave(m), hand);
  }
}
