/** What native code can do while it is in control: pass arguments, call EEL functions, keep and
    drop references, and return (`call_c`, `reset_args`, `eel_vargf` and `eel_call` in e_vm.c). */
module NativeCode {
  import opened Values
  import opened ObjectStore
  import opened CallStack
  import opened MachineState
  import opened Instructions

  /** `Reset` is `reset_args`, which every `eel_callf` begins with, and `Want` says that a result
      is wanted from the next call. */
  datatype NativeOp =
    | Reset
    | Want
    | Pass(v: Value)
    | Invoke(f: Function)
    | Keep(v: Value)
    | Drop(i: nat)
    | Create

  /** All of this is about the frame at `base`, whatever call that belongs to. */
  function NativeExec(m: Machine, op: NativeOp): Outcome {
    match op
    case Reset => Continue(ResetArgs(m))
    case Want => Continue(WriteReg(m, 0, Scalar(3, 1)))
    case Pass(v) => Continue(PushValue(TakeRef(m, v), v))
    case Invoke(f) => InvokeFunction(m, f)
    case Keep(v) => Continue(HostTakes(TakeRef(m, v), v))
    case Drop(i) => Continue(if i < |m.host| then GiveUp(HostLoses(m, i), [m.host[i]]) else m)
    case Create => Continue(HostTakes(m.(st := Construct(m.st, [])), Ref(|m.st|)))
  }

  function HostTakes(m: Machine, v: Value): Machine {
    m.(host := m.host + [v])
  }

  function HostLoses(m: Machine, i: nat): Machine
    requires i < |m.host|
  {
    m.(host := m.host[..i] + m.host[i + 1..])
  }

  /** `reset_args`. Register 0 is overwritten, and not disowned. */
  function ResetArgs(m: Machine): Machine {
    WriteReg(ClearArgs(m), 0, Nil)
  }

  /** `eel_call` up to the point where EEL code runs. A result goes to register 0, and is wanted
      unless nil is there. */
  function InvokeFunction(m: Machine, f: Function): Outcome {
    var want := m.Reg(0) != Nil;
    if PassedCode(m, f) != XOK then Exit(PassedCode(m, f), ResetArgs(m))
    else if want && !f.results then Exit(XNORESULT, m)
    else Continue(SetException(Enter(m, f, if want then m.k.base else -1, 0, PLAIN), Nil))
  }

  /** The registers that `call_c` restores at its end, from whatever frame `base` is at. The
      program counter is not one of them. */
  function BackFrom(m: Machine): Machine {
    if m.k.HasFrame() then m.(k := m.k.Below().(pc := m.k.pc)) else m
  }

  /** The same, with the arguments that the frame was called with removed. A native function that
      failed has its own pending arguments removed before. */
  function Landing(m: Machine, x: int): Machine {
    ClearArgs(BackFrom(if x != XOK then ClearArgs(m) else m))
  }

  /** The end of `call_c`, where `call` is the call of the native function: it returns exception
      code `x`, or if that is 0 and it has a result then reference `i` of those that native code
      holds. What is received then is in the result slot of the frame at `base`. */
  function FinishNative(m: Machine, call: ActiveCall, x: int, i: nat): Outcome {
    if x != XOK then ThrowCode(Landing(m, x), x)
    else if !call.cf.f.results || i >= |m.host| then Continue(Landing(m, x))
    else
      var m1, v := WriteResult(HostLoses(m, i), call.cf.result, m.host[i]), Received(m, call, i);
      if call.cf.result == call.base then Continue(GiveUp(Landing(m1, x), [v]))
      else Continue(Receive(Landing(m1, x), v))
  }

  /** What is in the result slot of the frame at `base`, when the result of `call` is in its own. The
      original reads before the heap if there is no slot. */
  function Received(m: Machine, call: ActiveCall, i: nat): Value
    requires i < |m.host|
  {
    var m1 := WriteResult(HostLoses(m, i), call.cf.result, m.host[i]);
    if m.k.HasFrame() && m.k.Cf().result >= 0 then RegValue(m1.k.heap, m.k.Cf().result) else Nil
  }

  function WriteResult(m: Machine, slot: int, v: Value): Machine {
    if slot >= 0 then WriteCell(m, slot, v) else m
  }
}
