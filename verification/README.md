# The run-time core of the EEL virtual machine, in Dafny

This project models what keeps a running EEL script safe, and proves it: the call frames,
exceptions and object ownership of the virtual machine; weak references and the containers that
hold them; interned strings and hash-ordered tables; the small allocators that all of this rests
on; and the pieces that several threads share. It is verified with Dafny 4.11 by
`dafny verify dfyconfig.toml`. Nothing here executes the original program.

## What is here

**The virtual machine.** `virtual_machine.dfy` has the class `VM`, whose fields are those of the C
structure: one growing heap of cells in which every call has, from bottom to top, the arguments
that were pushed for it, its clean table, its call frame and its registers; the registers `base`,
`sp`, `sbase` and `pc`; and the exception register. Its methods follow the functions of `e_vm.c`
and the instructions of `eel_run`, loop for loop. Each method is proved equal to a step function on
values (`instructions.dfy`, `native.dfy`), and the theorems are about runs of these steps: any
sequence of instructions and of actions of native code. Who may act is part of the state of a run
(`Runs.Session`): it has the native functions that have not returned, as they are on the C stack, and
whether the interpreter or native code is in control, so that native code goes on after an
exception wherever that left the VM. The invariant `MachineState.Inv` says that
the chain of frames is well-formed, that every reference count is the number of owners, that
limbo lists and flags agree, and that each upvalue link that a function needs names a live call of the
lexical parent. `runs.dfy` proves that every step keeps it; `call_theorems.dfy`, `exception_theorems.dfy`,
`stray_exits.dfy`, `block_returns.dfy`, `call_results.dfy`, `data_flow.dfy` and `limbo_theorems.dfy` say what
follows from it for whole runs: among other things that temporaries, which own nothing, are safe in the
keeping of limbo lists. `call_checks.dfy`, `thrown_values.dfy` and `instruction_effects.dfy` say in plain terms
what the instructions do: which calls are accepted, which catcher gets which value, which register or
variable changes and which do not.

A program is what the compiler emits. What the VM takes for granted about it is written down in
`Safety.WellCoded`: registers that receive values are temporaries, the clean table is large enough
for the variables of the function, the nesting depth in CCALL is right, blocks of exception
statements carry the result flag of their function, and an assigned object has another owner
besides the variable that is overwritten (ASSIGN and its relatives disown the old value before
they copy the new one). What it takes for granted about native functions is in
`NativeSteps.WellBehaved` and `NativeSteps.FinishFits`.

Some rules are different, because neither the compiler nor the author of a native function can see to
them. For each there is an if-and-only-if, which says that the invariant is kept exactly when the rule is:

- A function that uses upvalues and is called as a value, with CALL or CALLR, must be declared in the
  function that calls it (`CallTheorems.CallIff`); and if native code calls it, in the one whose frame
  `base` is at (`NativeSteps.NativeIff`).
- A script must not throw the number that is the code XRETURN if the slot for the result of its
  function has an object in it (`ExceptionTheorems.ThrowReturnIff`, and `FinishReturnIff` for native code).
- Native code that is in control while `base` is at a frame of EEL code must not overwrite a variable
  there that has an object (`NativeSteps.NativeIff`), nor return from that frame while it has something to
  clean up (`LandingIff`) or return a result that is not what is received there
  (`ExceptionTheorems.FinishResultIff`).

`sample_run.dfy` has a run that follows the rules, and three that are about to break such a rule.

**Weak references, arrays, tables.** `weak_references.dfy` models memory slots and the vectors of
back-pointers in objects as the class `Memory`. `arrays.dfy` and `tables.dfy` build on it: their
classes hold the address of a block of slots, and every operation is proved to do what it should
to the sequence of items, to the ownership counts, and to nothing outside the block. The address
that `realloc` returns is a parameter. `slot_accounting.dfy` has the invariant that all of them keep: a
reference count is the number of slots that own the object and of its owners elsewhere, and no weak
reference is to a dead object. `nested_destruction.dfy` is about weak references and containers
together: what is left when an object dies, with all that only it kept alive. `table_union.dfy` adds one
table to another, and to itself; `table_runs.dfy` compares a table with a map over any sequence of
operations. Whether a key equals another, and its hash code, are parameters as well
(`TableSearch.Rules`), so that the results hold under arbitrary collisions; strings are compared by
object, which the string pool justifies.

**Strings.** `string_pool.dfy` has the pool with its buckets, and the bounded cache of dead strings,
in the doubly linked lists of `linked_lists.dfy`.

**Allocators.** `resize.dfy` is the resize calculator and its amortised cost; `string_buffers.dfy` is
the pool of sixteen string buffers.

**Threads.** `sfifo.dfy` has the lock-free FIFO, as a class and as a system of interleaved steps;
`shared_state.dfy` has the opening and closing of the process-wide registry by any number of
threads; `exception_registry.dfy` is the registry of exception codes, with `exception_checks.dfy` and
`exception_descriptions.dfy`, and `concurrent_registration.dfy` is about threads that use it at the same
time.

## What the proofs turned up

- `sfifo_init` accepts sizes up to 0x7fffffff, but does not return for 2^30 or more: the doubled size
  overflows to a negative number and then to 0, where it stays (`Sfifo.InitTerminates`).
- Lists of exceptions are compared with registered ones by position, although entries are stored
  by code. A list whose names are not found at the positions that their codes call for can be taken
  for a different list, and then has wrong names. The comparison can also meet a null name in a block
  with gaps, or run past the end of a block; the model has the outcome `Undefined` for both. An
  ordinary ascending list of three codes is enough for that (`ExceptionRegistry.NullNameCompared`).
  When neither can happen is stated as if-and-only-ifs, for histories without gaps
  (`RightNamesIffPositional`) and for all histories (`RightNamesIffShort`, `NeverUndefinedIff`). The
  exception codes for "no name" and "bad code" are interchanged (`ExceptionChecks.RefusedFor`), and the check
  for a range that is too wide can never fail. Descriptions are not compared: a list with the codes and
  names of one that was registered before has the descriptions of that one
  (`ExceptionDescriptions.FirstDescriptions`).
- A thread that calls `eel_add_api_user` while another one is closing the registry, and a third one
  waits to open it again, is let in before it is open (`SharedState.LateJoinersOnly`, an
  if-and-only-if).
- With a base of 8 or more, the second append to a full buffer of the smallest size passes through the
  branch of `eel_calcresize` that shrinks (`Resize.AppendShrinks`). The cost is linear nevertheless.
- The range check for deletes lets the last index be equal to the length. That is not modelled:
  see below.
- The codes 0, XYIELD, XEND and XRETURN keep their special meaning for the scheduler when a script
  throws them (`ExceptionTheorems.ThrowRaises`). A script that throws the number XRETURN where a result is
  expected makes the VM receive whatever is in the slot for the result. If that is an object, its
  reference count is wrong from then on, and only then (`ThrowReturnIff`); `SampleRun.ThrowCanSpoil` has
  a run.
- A script that throws the number XEND, or throws anything out of an UNTRY block, returns control to the
  native code that called it, but leaves `base` at the frame of the script
  (`StrayExits.ExitWhere`, an if-and-only-if). If the native code is a function, then when it returns it
  returns from that frame, and its own caller is not back (`CallTheorems.NativeCallRestores`, an
  if-and-only-if); from the frame of a function that it called itself it returns to its own frame, where
  the interpreter has no code to go on with (`StrayExits.NobodyGoesOn`). What the script's frame owned is
  never cleaned up (`NativeSteps.LandingIff`), and the next `eel_callf` overwrites register 0 of that
  frame without disowning it (`NativeSteps.NativeIff`). `SampleRun.NativeCanStray` has a run. A call that the
  native code makes from there returns into the script, after its THROW
  (`StrayExits.CallbackReturns`).
- A function that uses upvalues can be returned, passed on, or called through a variable from a try block
  of the function that it is declared in. CALL, CALLR and `eel_callf` give it a link to the frame that
  calls it, whatever that is (`CallTheorems.ValueEnters`), so that GETUVAL and SETUVAL take the registers
  of the caller for those of the function that it is declared in. The links are wrong then, and only then,
  and nothing else is (`CallIff`). `SampleRun.CallCanMislead` has a run.
- When native code calls a native function and wants its result, `call_c` receives that into a limbo list
  that nobody cleans, or, at the top level, into memory before the heap, unless it is no object or is in
  limbo already (`NativeSteps.ReceiveInNative`, an if-and-only-if).
- Two threads that register the same list of exceptions at the same time get two offsets for it if both
  search before either has installed its block (`ConcurrentRegistration.TwoOffsets`); codes never collide.
- Adding a table to itself in place (`t_ipadd`) loses weak references among the values, and uses a
  destroyed object if a value has no other owner (`TableUnion.InsertSelf`, an if-and-only-if).
- Freeing a string buffer that is free already corrupts the lists if it is the first or the last of
  the free list, and only then. That can happen to a buffer that was taken back and freed by its new
  owner, when its old owner frees it as well (`StringBuffers.Pool.Sfree`).

## Model

| member | source | states |
|---|---|---|
| ObjectStore.ReleaseAccounted | src/core/e_object.h:333-442 | Giving up any references leaves exactly the remaining ones counted: what lost its last owner, directly or through a destroyed container, is dead and was disposed of once, and nothing else is. |
| ObjectStore.ReleaseKeepsMost | src/core/e_object.h:416-442 | Nothing is destroyed that could have stayed: every store that accounts for the remaining references has no more objects alive. |
| ObjectStore.ReleaseOrderIrrelevant | src/core/e_object.h:416-466 | The order in which references are given up makes no difference to the outcome. |
| ObjectStore.RootedSurvives | src/core/e_object.h:354-442 | An object that something outside the containers still owns survives any release. |
| MachineState.ReceiveOk | src/core/e_object.h:551-598 | A received object ends up in limbo whether it was there before or not, and the reference that came with it is accounted for. |
| MachineState.GrabOk | src/core/e_object.h:611-627 | A live value that is grabbed is covered by a limbo list, and all references stay accounted for. |
| Runs.StepKeepsInvariant | src/core/e_vm.c:1047-2305 | Every instruction, every action of native code, and every end of a native function that follows the rules, whatever exceptions it throws and whatever frame `base` is at, keeps the call chain well-formed, the links of functions that use upvalues right, each reference accounted for and the native functions on the C stack active, and leaves the calls that stay active as they were. |
| Runs.RunKeepsInvariant | src/core/e_vm.c:1047-2305 | So does every run of such steps. |
| Runs.ReferencesAccounted | src/core/e_object.h:354-627 | In every state that a run by the rules can reach, including those in which native code goes on after a script has thrown XEND, an object's reference count is the number of variables, arguments, static variables, container items, native references and the exception register that own it, plus one if it is on a limbo list; it is alive exactly while that is positive, and a dead one was disposed of once. |
| Runs.InitialInvariant | src/core/e_vm.c:2349-2383 | The invariant holds when the VM is opened, with native code in control at the top level. |
| NativeSteps.NativeIff | src/core/e_vm.c:2558-2759 | Clearing the argument stack, asking for a result and calling an EEL function keep the invariant, at whatever frame `base` is, if and only if register 0 there is no owner of an object that is overwritten, and is free if a result goes there, and a function that is entered and uses upvalues is declared in the one at `base`. |
| NativeSteps.HomeIsFree | src/core/e_vm.c:2558-2759 | At the frame of a native function, or at the top level, they always do, if the function that is called does not use upvalues; one that does, and is entered, never finds them from there. |
| NativeSteps.LandingIff | src/core/e_vm.c:605-658 | The registers that the end of a native function restores, and the arguments that it removes, leave everything accounted for if and only if the frame at `base` has no object in its limbo list, its variables or its pending arguments (those of a function that failed are removed), and the program counter is right if a native function called it. |
| NativeSteps.HomeFits | src/core/e_vm.c:605-658 | A native function that returns from its own frame, with no arguments left over, has nothing to observe but the rule for XRETURN. |
| NativeSteps.ReceiveInNative | src/core/e_object.h:551-598 | What is received at a native frame, or at the top level, leaves all references accounted for if and only if it is no object, or is in limbo already. |
| CallLinks.UpvaluesReachAncestor | src/core/e_vm.c:125-150 | Following n upvalue links from an active call leads to the registers of an active call of its n-th lexical ancestor. |
| CallTheorems.UpvaluesAlive | src/core/e_vm.c:125-150 | The same in every state that a run by the rules can reach from the start, that is, if functions that use upvalues are called as values only by the function that they are declared in, for as many links as the function needs. |
| CallTheorems.ValueEnters | src/core/e_vm.c:1479-1493 | A function value that is called gets a link to the frame of its caller, whatever function runs there. |
| CallChecks.ArgumentsChecked | src/core/e_vm.c:321-339 | A number of arguments is accepted if and only if the required ones are there, and the others are some of the optional ones, or all of these and whole tuples; the three exceptions for other numbers are told apart. |
| CallChecks.CallChecked | src/core/e_vm.c:1479-1493 | CALL and CALLR enter a function, with the pushed arguments in their order and its result going to the register that was named, if the value is a function, their number is right, and a wanted result exists; each other case throws the exception that belongs to it. |
| CallChecks.ConstantCalled | src/core/e_vm.c:1495-1519 | CCALL and CCALLR enter their function in the same way, whatever the number of arguments, unless a result is wanted that does not exist. |
| CallChecks.InvokeChecked | src/core/e_vm.c:2684-2759 | `eel_call` of an EEL function does the same from whatever frame `base` is at, where register 0 says if a result is wanted, and is where it goes. |
| CallChecks.ResetMeans | src/core/e_vm.c:2558-2572 | Clearing the arguments leaves none, and asks for no result. |
| CallTheorems.CallIff | src/core/e_vm.c:1479-1493 | CALL and CALLR keep the invariant if and only if a function that they enter, and that uses upvalues, is declared in the function that calls it; everything in it but the upvalue links is kept in any case. |
| SampleRun.CallCanMislead | src/core/e_vm.c:1479-1485 | A run of three steps in which a function that uses upvalues is passed as an argument: calling it makes it take the registers of its caller, which is not the function that it is declared in, for those of that function. |
| CallTheorems.RegionsOrdered | src/core/e_vm.c:432-495 | Arguments, clean table, frame and registers of each call follow each other in the heap, and the clean table has room for its entries and their count. |
| CallTheorems.RegionsDisjoint | src/core/e_vm.c:215-242 | In every reachable state the regions of different calls are in order, disjoint and within the heap. |
| CallTheorems.RunEvolves | src/core/e_vm.c:432-556 | While a call is active, it and all calls below it have the frames that they were made with. |
| CallTheorems.CallReturnRestores | src/core/e_vm.c:1521-1572 | However the called EEL function runs: when it returns, base, sbase and pc of the caller are back, its arguments are consumed, and the calls below are the same. |
| CallResults.ResultArrives | src/core/e_vm.c:1508-1572 | However the called EEL function runs: when it executes RETURNR, the value is in the register that CALLR or CCALLR named, alive and in limbo if it is an object, and the caller goes on with its next instruction. |
| CallTheorems.NativeCallRestores | src/core/e_vm.c:560-658 | Whatever a called native function does, including calls of EEL functions: when it returns without an exception, the caller's base, sbase, pc and calls are back if and only if `base` was at the native function's own frame; otherwise `base` ends up above the caller. |
| CallResults.NativeResultArrives | src/core/e_vm.c:560-658 | Whatever a called native function does: the value that it returns from its own frame is in the register that the caller named, alive and in limbo if it is an object. |
| StrayExits.ExitWhere | src/core/e_vm.c:821-933 | As long as native code has had control at its own frame: an exit from the interpreter leaves `base` at the frame of native code, or at the top level, if and only if no XEND was thrown and the search for a handler did not stop at an UNTRY block. |
| StrayExits.StepSettles | src/core/e_vm.c:2665-2680 | Native code keeps having control at its own frame, and only native functions that have not returned keep having frames, if and only if the step is no such exit. |
| StrayExits.OpenedSettled | src/core/e_vm.c:2349-2383 | An opened VM is in that state, so that all this applies from the start. |
| StrayExits.RunSettles | src/core/e_vm.c:2665-2680 | In a run without such an exit, whenever native code is in control `base` is at its frame. |
| StrayExits.NestedCallRestores | src/core/e_vm.c:560-658 | So a native function without such an exit gives its caller back base, sbase, pc and all calls. |
| StrayExits.CallbackReturns | src/core/e_vm.c:1521-1572 | However an EEL function runs that native code has called: when it returns, registers and calls are as they were, and native code has control again if and only if `base` was at its frame. |
| CallResults.CallfEnters | src/core/e_vm.c:2558-2759 | A call of an EEL function by native code at its own frame, or at the top level: the function is entered, with the arguments that were pushed and with a place for a result if one was asked for, if and only if their number is right and a wanted result exists; a refused call leaves all calls as they were. |
| CallResults.ResultToNative | src/core/e_vm.c:1544-1572 | What the function returns is then a reference that native code holds, and it is in control again. |
| StrayExits.NobodyGoesOn | src/core/e_vm.c:605-658 | A native function that returns without an exception to the frame of a native function leaves nobody who could take a step. |
| SampleRun.NativeCanStray | src/core/e_vm.c:821-823 | A run of eight steps in which a native function calls an EEL function that throws XEND: the next call would lose an object, and the return is not one to the caller. |
| CallTheorems.ReturnedValueArrives | src/core/e_vm.c:1544-1572 | A returned value arrives in the register that the caller named, and a returned object survives the cleaning up after the callee, alive and in limbo. |
| LimboTheorems.TemporariesStay | src/core/e_object.h:470-530 | An object that is in limbo while a call is running stays in limbo, and alive, in every later state of every run in which that call is active. |
| LimboTheorems.FetchedStays | src/core/e_object.h:605-627 | So a value that is fetched from a variable, an argument or a container, or made by NEW, has an owner as long as the call is active, whatever happens to the place that it came from. |
| DataFlow.ArgumentArrives | src/core/e_vm.c:1792-1803 | Argument n of a function is what its caller pushed as number n; if it was not passed it is the default value, and asking for one without a default throws XHIGHINDEX. |
| DataFlow.PushAppends | src/core/e_vm.c:1348-1351 | PUSH adds one argument and keeps those that were pushed before, even if the heap has to grow. |
| DataFlow.VariableAssigned | src/core/e_vm.c:1663-1665 | ASSIGN changes the one variable that it names and no other cell of the heap. |
| DataFlow.UpvalueAssigned | src/core/e_vm.c:1682-1691 | SETUVAL changes the variable of the active call of the lexical ancestor, and nothing else, and GETUVAL then reads the new value. |
| DataFlow.StaticAssigned | src/core/e_vm.c:1693-1700 | GETVAR reads back what SETVAR stored, and SETVAR touches no register. |
| DataFlow.ItemStored | src/core/e_vm.c:1737-1760 | After INDSET, INDGET gives the new item at the index that was set, the old ones elsewhere, nil in a gap, and an exception past the end; for indices that are integers, booleans, class ids or real numbers, of which a real one names the item of its floor. |
| DataFlow.NotIndexed | src/core/e_array.c:114-190 | Negative indices, indices that are no numbers, containers that are no objects, and functions, each throw the exception that belongs to them. |
| InstructionEffects.RegisterLoaded | src/core/e_vm.c:1621-1643 | LDI and MOVE give their register the value, and change nothing else. |
| InstructionEffects.VariableInitialized | src/core/e_vm.c:1645-1647 | INIT makes its register the newest variable, with the value, and changes no other register or variable. |
| InstructionEffects.VariablesCleaned | src/core/e_vm.c:265-287 | CLEAN gives up the variables after the first n, the newest first, and the others keep their values. |
| InstructionEffects.ArgumentSet | src/core/e_vm.c:1830-1837 | SETARGI changes the argument that it names and no other cell, and GETARGI then reads the new value; arguments that were not passed cannot be set. |
| InstructionEffects.ContainerMade | src/core/e_vm.c:2194-2199 | NEW makes an object that has the pushed arguments as its items, in their order, and consumes them. |
| InstructionEffects.GoesToNext | src/core/e_vm.c:1348-1700 | The other instructions that move values go on with the instruction after them. |
| Unwinding.UnwindOk | src/core/e_vm.c:724-753 | `unwind` ends at the caller that it was told to go to, with that caller and all below it untouched. |
| Unwinding.HandlerFound | src/core/e_vm.c:882-933 | The search for a handler ends at the innermost call with a catcher, unless native code, an UNTRY block or the top level comes first. |
| Unwinding.FunctionFrameFound | src/core/e_vm.c:824-881 | From any nest of try blocks and catchers, the search for the enclosing function finds the innermost call that is no block, and all blocks deliver their result where that call does. |
| CutCalls.UnwindReleases | src/core/e_vm.c:724-753 | Unwinding gives up exactly what the abandoned calls own (variables, limbo lists, pending arguments), each reference once. |
| CutCalls.CutSplit | src/core/e_vm.c:724-753 | What a call chain owns is what the calls that are cut off own and what the rest owns. |
| ExceptionTheorems.ExceptionGoes | src/core/e_vm.c:882-933 | An exception goes to the innermost call with a catcher above the nearest boundary; the handler starts with the exception in its first variable, on top of untouched callers; or else the VM returns to native code with the calls above the boundary released. |
| ExceptionTheorems.CatcherState | src/core/e_vm.c:685-721 | What a catcher finds when it starts: its own frame above the call it serves, the result slot of that call, the exception as its one variable, and an empty exception register. |
| ExceptionTheorems.ThrowRaises | src/core/e_vm.c:2241-2245 | THROW sets the exception register and nothing else; then 0 and XYIELD go on with the next instruction, XEND returns to native code with all calls in place, XRETURN returns from the function, and all other codes start the search for a handler. |
| ThrownValues.ThrownGoes | src/core/e_vm.c:790-933 | THROW of nil, 0 or 1 just goes on; 3 ends the run, 4 returns from the function, 9 is never caught; and every other value, be it a number, an object or anything else, is caught by the innermost call that has a catcher, unless native code or an UNTRY block comes first, and then native code gets the number, or 6 if it is none. |
| ThrownValues.CodeGoes | src/core/e_vm.c:790-933 | So is an exception that an instruction raises: the catcher gets its code. |
| ThrownValues.NativeFailureGoes | src/core/e_vm.c:605-658 | So is one that a native function returns: it is raised in the caller, whose arguments have been consumed. |
| ThrownValues.UntryExposes | src/core/e_vm.c:2226-2239 | An exception from an UNTRY block goes to native code, with the block still running, whatever catchers there are further out. |
| ExceptionTheorems.ReturnXAccounted | src/core/e_vm.c:824-881 | A return through the scheduler without a result having been copied keeps all references accounted for if and only if the slot for the result, if there is one, has no object in it. |
| ExceptionTheorems.ThrowReturnIff | src/core/e_vm.c:2241-2245 | Throwing the number that is XRETURN keeps the invariant if and only if that is so. |
| ExceptionTheorems.FinishReturnIff | src/core/e_vm.c:605-658 | A native function that leaves nothing behind may end with the code XRETURN if and only if that is so for the EEL function that it returns to. |
| ExceptionTheorems.FinishResultIff | src/core/e_vm.c:605-658 | A native function that leaves nothing behind may return a result to EEL code, from whatever frame `base` is at, if and only if what is received there is the same object, or no object is involved. |
| SampleRun.ThrowCanSpoil | src/core/e_vm.c:2241-2245 | A run of five steps that ends in a state where throwing that number spoils the reference counts. |
| ExceptionTheorems.RetryRerunsTry | src/core/e_vm.c:2247-2268 | However the try block ran into its exception and however the catcher ran: RETRY makes the TRY instruction that was executing the next one, with the same base, sp, sbase and callers. |
| BlockReturns.RetXIsReturn | src/core/e_vm.c:2270-2280 | RETX from any nest of try blocks and catchers leaves the same state as RETURN from the enclosing function with those blocks unwound. |
| BlockReturns.RetXRIsReturnR | src/core/e_vm.c:2282-2302 | RETXR from any nest of try blocks and catchers is RETURNR of the same value by the enclosing function, with those blocks unwound and the value in hand: nothing but the blocks need own it, and no register of the function need hold it. RETURNR of a register is the same act, in any state. |
| BlockReturns.RetXRArrives | src/core/e_vm.c:2282-2302 | The result of RETXR is in the slot that the caller named, alive and in limbo, or a native caller owns it, even if only the blocks owned it before; base, sbase, sp, pc and the calls are the caller's, as after RETURN. |
| BlockReturns.RetXRIsReturnROfRegister | src/core/e_vm.c:1544-1572 | If the value survives the unwinding in a register of the function, then that is the RETURNR of this register, in every respect. |
| SampleRun.BlocksCanBeLeft | src/core/e_vm.c:2206-2280 | A call from native code, TRY and then RETX follow the rules that the theorems assume, from any initial state: those rules can be met. |
| VirtualMachine.VM.Disown | src/core/e_object.h:416-466 | The recursive destruction of objects gives up one reference, and what follows from that, as the accounting theorems describe. |
| VirtualMachine.VM.StackClear | src/core/e_vm.c:246-261 | All pending arguments are disowned, and the stack is empty. |
| VirtualMachine.VM.Clean | src/core/e_vm.c:265-287 | The variables above the mark are disowned, and the clean table ends there. |
| VirtualMachine.VM.LimboClean | src/core/e_vm.c:291-308 | All objects on the limbo list lose the reference that the list held, and the list is empty. |
| VirtualMachine.VM.GrowHeap | src/core/e_vm.c:215-242 | The heap is doubled until it is sufficient, and keeps what it held. |
| VirtualMachine.VM.GetUvBase | src/core/e_vm.c:125-150 | The loop over upvalue links arrives where the links lead. |
| VirtualMachine.VM.AddFrame | src/core/e_vm.c:432-495 | The new frame, clean table and registers lie above the caller's arguments, with the way back recorded. |
| VirtualMachine.VM.CallEel | src/core/e_vm.c:499-556 | A call of an EEL function enters it with its result slot, its upvalue link and its arguments. |
| VirtualMachine.VM.CallC | src/core/e_vm.c:560-608 | A call of a native function: it always gets a result slot, its own register if need be. |
| VirtualMachine.VM.CallF | src/core/e_vm.c:661-682 | The call is made unless a result is wanted from a function that has none. |
| VirtualMachine.VM.StartCatcher | src/core/e_vm.c:685-721 | The handler is called on behalf of the call that it serves, and the exception moves into its first variable. |
| VirtualMachine.VM.UnwindTo | src/core/e_vm.c:724-753 | The loop cleans up call by call until it arrives at its target, and terminates. |
| VirtualMachine.VM.ReturnFromBlocks | src/core/e_vm.c:824-881 | Leaving a function from inside its blocks. |
| VirtualMachine.VM.FindCatcher | src/core/e_vm.c:882-933 | The loop over frames finds the handler that the search is specified to find. |
| VirtualMachine.VM.Schedule | src/core/e_vm.c:790-933 | The scheduler does what the exception register calls for, which `ThrownValues` follows for every value. |
| VirtualMachine.VM.Step | src/core/e_vm.c:1047-2305 | Each modelled instruction does to the fields of the VM what the step function says, and so keeps the invariant; what the step function says is followed in `CallChecks`, `DataFlow`, `InstructionEffects` and `ThrownValues`. |
| VirtualMachine.VM.Reset | src/core/e_vm.c:2558-2572 | Pending arguments are disowned, and register 0 of the frame at `base` is nil. |
| VirtualMachine.VM.Invoke | src/core/e_vm.c:2684-2759 | A call from native code into EEL code, from whatever frame `base` is at, with a result wanted unless nil is in register 0, does what `CallChecks.InvokeChecked` says. |
| VirtualMachine.VM.Finish | src/core/e_vm.c:605-658 | The end of a native function, at whatever frame `base` is: its arguments are dropped, and its result is received, or its exception thrown. |
| Sfifo.InitTerminates | src/eelium/sfifo.c:44-70 | `sfifo_init` leaves its loop if and only if the requested size is less than 2^30. |
| Sfifo.SFifo.Init | src/eelium/sfifo.c:44-70 | The buffer is a power of two with room for all the bytes asked for, and the FIFO is empty. |
| Sfifo.SFifo.Write | src/eelium/sfifo.c:98-127 | As many bytes as there is room for are added at the end of the queue, and no other byte of the buffer changes. |
| Sfifo.SFifo.Read | src/eelium/sfifo.c:175-204 | As many bytes as there are, up to the number asked for, are taken from the front of the queue, in order. |
| Sfifo.SFifo.Flush | src/eelium/sfifo.c:86-91 | The FIFO is empty. |
| Sfifo.MaskIsMod | src/eelium/sfifo.h:114-115 | Masking a difference of positions, negative or not, takes its remainder. |
| Sfifo.UsedIs | src/eelium/sfifo.h:101-115 | `sfifo_used` is the number of bytes written and not yet read, also when a position is equal to the size. |
| Sfifo.FifoCorrect | src/eelium/sfifo.c:98-204 | For every interleaving of a writer and a reader, byte by byte: what is delivered is a prefix of what was written; used + space is size - 1; the regions being written and read are disjoint. |
| Sfifo.WriteAccepts | src/eelium/sfifo.c:98-127 | A write accepts exactly as many bytes as were free when it looked, and a read delivers as many as were there. |
| SharedState.OpensAndClosesAlternate | src/core/e_sharedstate.c:35-93 | With any number of threads, openings and closings of the registry take turns and never overlap, `eel_api_up` is 0 or 1, and `eel_api_users` is the number of counted threads. |
| SharedState.CloserIsAlone | src/core/e_sharedstate.c:74-93 | A leaving thread becomes the closer if and only if no other thread is counted. |
| SharedState.LateJoinersOnly | src/core/e_sharedstate.c:35-71 | A joining thread can be let in before the registry is open if and only if it joins while one thread closes and another one already waits to open. |
| ExceptionRegistry.AscendingNamesKept | src/core/e_exceptions.c:186-295 | Registering a gap-free ascending list compares no null name if earlier lists had no gaps, or the list is short; it fails only for want of a free block or for a bad definition; and an offset gives positive 31 bit codes outside the block of the VM's own codes, each of which leads back to its name after all later registrations. |
| ExceptionRegistry.NamesKept | src/core/e_exceptions.c:94-129 | If registering a list gives an offset, and each name is at the position that its code calls for, then each code that was handed out has its name after all later registrations. |
| ExceptionRegistry.NoCollisions | src/core/e_exceptions.c:270-290 | Codes from two registrations are the same only if offset and code are both the same. |
| ExceptionRegistry.SameOffsetAgain | src/core/e_exceptions.c:155-183 | Registering the same list again changes nothing and gives the same offset. |
| ExceptionRegistry.RightNamesIffPositional | src/core/e_exceptions.c:155-183 | A list is registered without a fault and gets its own names, whatever gap-free lists were registered before, if and only if it has no more definitions than codes and its names are at the positions that their codes call for. |
| ExceptionRegistry.RightNamesIffShort | src/core/e_exceptions.c:155-183 | Whatever lists were registered before, gaps or not, that is so if and only if the list moreover has one definition or at most two codes. |
| ExceptionRegistry.NeverUndefinedIff | src/core/e_exceptions.c:155-183 | No comparison meets a null name or runs past a block, whatever was registered before, if and only if the list has no more definitions than codes, and has one definition or at most two codes. |
| ExceptionRegistry.NeverFaults | src/core/e_exceptions.c:155-183 | If the lists before had no gaps, then having no more definitions than codes is enough. |
| ExceptionRegistry.NullNameCompared | src/core/e_exceptions.c:167-172 | After a list of the codes 1 and 3, the list of 1, 2 and 3 makes `strcmp` read a null name. |
| ExceptionRegistry.CodesInRange | src/core/e_exceptions.c:196-232 | A list that passes the checks has all its codes between the minimum and the maximum that the block is made for. |
| ExceptionChecks.RefusedFor | src/core/e_exceptions.c:196-232 | A list is refused if and only if it has a bad definition, with the code for its first one: 93 if that has no name, and 92 if its code is bad. |
| ExceptionChecks.KnownIff | src/core/e_exceptions.c:94-116 | A code leads to an entry if and only if it is one of some block, and then to that entry; negative codes never do. |
| ExceptionDescriptions.DescriptionsKept | src/core/e_exceptions.c:132-142 | Each code of a list that got a block of its own has the description from the list, or its name if there is none, after all later registrations. |
| ExceptionDescriptions.FirstDescriptions | src/core/e_exceptions.c:155-183 | A list with the codes and names of an earlier one changes nothing, whatever its descriptions are. |
| ConcurrentRegistration.NeverCollide | src/core/e_exceptions.c:243-290 | For any number of threads that search without the mutex, block by block, and install under it: codes handed out to any two of them are the same only if offset and code are both the same. |
| ConcurrentRegistration.LaterGetFirst | src/core/e_exceptions.c:155-183 | A thread that starts to search when some block has its list is on its way to the offset of the first such block, or has got it, in every interleaving from then on. |
| ConcurrentRegistration.InstallIsFresh | src/core/e_exceptions.c:270-290 | A thread whose search has found nothing gets an offset that nobody else has for the same list. |
| ConcurrentRegistration.TwoOffsets | src/core/e_exceptions.c:243-290 | For any list that passes the checks and is not registered, while two blocks are free, there is an interleaving in which two threads get two offsets for it. |
| ExceptionRegistry.Registry.Check | src/core/e_exceptions.c:196-232 | The counting loop finds the first bad definition, or else the number, least and greatest code of the definitions before the terminator. |
| ExceptionRegistry.Registry.FindBlock | src/core/e_exceptions.c:155-183 | The search through registered blocks, with comparison by position. |
| ExceptionRegistry.Registry.Add | src/core/e_exceptions.c:186-295 | Registration changes the array of blocks as specified: not at all on failure or for a known list, and one free block otherwise. |
| Resize.Calculate | src/core/e_util.h:232-261 | The calculation gives at least the request, and ends for every request as far as no number overflows. |
| Resize.FitsIff | src/core/e_util.h:232-261 | No number in the growing loop overflows 32 bits if and only if the last size that it finds too small is at most 715827882. |
| Resize.AppendFits | src/core/e_util.h:232-261 | A full buffer of n elements can be grown for one more if and only if n is at most 715827882. |
| Resize.SizeBound | src/core/e_util.h:232-261 | A grown buffer is at most half as large again as the request, plus the base; a buffer that does not have to grow never gets larger, unless it is smaller than the base. |
| Resize.CopyingIsLinear | src/core/e_util.h:232-261 | Over any run of single appends and deletes, the elements copied by resizing, and the savings left, are at most a constant for each of them more than at the start. |
| Resize.CopyingFromEmpty | src/core/e_util.h:232-261 | From an empty container, m changes copy at most K * m elements, with K depending on the base alone. |
| Resize.AppendShrinks | src/core/e_util.h:232-261 | Appends can make a buffer shrink. |
| LinkedLists.DLList.Push | src/core/e_util.h:76-90 | The node is the first of the list, and the links of nodes outside are untouched. |
| LinkedLists.DLList.Link | src/core/e_util.h:92-106 | The node is the last of the list, and the links of nodes outside are untouched. |
| LinkedLists.DLList.Unlink | src/core/e_util.h:108-121 | The node is taken out wherever it is, the others stay in order, and its own links are cleared. |
| StringBuffers.Pool.Salloc | src/core/e_util.c:69-89 | The buffer that was freed last, or if none is free the one that was allocated longest ago, becomes the newest allocated one. |
| StringBuffers.Pool.Sfree | src/core/e_util.c:92-124 | An address of a buffer frees that buffer, and any other address does nothing; the links hold two lists of all buffers afterwards if and only if the buffer was allocated, or was a free one that is neither the first nor the last of the free list. |
| StringBuffers.AlwaysPartition | src/core/e_util.c:48-124 | In every state that allocating, and freeing such buffers, can reach, each of the 16 buffers is in exactly one of the two lists, once. |
| StringBuffers.NotBefore | src/core/e_util.c:69-89 | A buffer with n others allocated after it is not handed out before 15 - n more allocations, whatever is freed. |
| StringBuffers.FifteenOthersFirst | src/core/e_util.c:69-89 | A buffer that is not freed is not handed out again before at least fifteen other allocations. |
| StringBuffers.NextOut | src/core/e_util.c:69-124 | Whatever was allocated and freed before, the buffer that is handed out is the one that was freed last, or if none is free the one whose last allocation is longest ago. |
| StringPool.PoolCorrect | src/core/e_string.c:79-218 | In every reachable state, under any hash function: same content if and only if same object; creating a live or cached string gives that object; the cache has exactly the strings without references, and is no longer than its limit + 1. |
| StringPool.ReferencesHeld | src/core/e_string.c:129-272 | After every run, the reference count of a string is the number of references given out, by creating or owning it, less those given back; a string that somebody holds is in the pool, and not in the cache. |
| StringPool.SpillDropsOldest | src/core/e_string.c:239-272 | What is destroyed when the cache spills has been dead longer than anything that stays. |
| StringPool.StrNCmpIsEquality | src/core/e_string.c:79-97 | The comparison in `ps_find` is equality for strings of one length without null characters. |
| StringPool.Pool.Find | src/core/e_string.c:79-97 | A string is found if and only if it is pooled, and then it is its one object. |
| StringPool.Pool.Resurrect | src/core/e_string.c:129-143 | The string has exactly one more reference, alive or dead, and has left the cache if it was dead. |
| StringPool.Pool.NNew | src/core/e_string.c:189-218 | The string's object, which is the one that was there, with one more reference, or a new one with one; it is not in the cache. |
| StringPool.Pool.PsCache | src/core/e_string.c:239-272 | A dead string becomes the first in the cache, whose size counter stays its length, and the last one is destroyed if the limit was exceeded before. |
| StringPool.Pool.Disown | src/core/e_string.c:227-272 | A string that loses its last owner is cached. |
| WeakReferences.AttachExact | src/core/e_object.h:120-178 | Attaching keeps slots and vectors in exact correspondence: slot v is wired to o if and only if entry v.index of o's vector is v. |
| WeakReferences.DetachExact | src/core/e_object.h:181-243 | So does detaching, where the last entry takes the place of the one that goes; only the detached slot changes what it refers to. |
| WeakReferences.RelocateExact | src/core/e_object.h:246-279 | So does moving a slot to another address. |
| WeakReferences.KillExact | src/core/e_object.h:286-305 | After the death of an object every slot that was wired to it is nil, no other slot has changed, and the rest is still exact. |
| WeakReferences.Memory.Attach | src/core/e_object.h:120-178 | The slot refers weakly to the object, and no other slot changes. |
| WeakReferences.Memory.Detach | src/core/e_object.h:181-243 | The slot is nil and no other slot changes, whether or not the vector shrinks or goes away. |
| WeakReferences.Memory.Kill | src/core/e_object.h:286-305 | All weak references to the object are nil, and its vector is gone. |
| WeakReferences.Memory.Disown | src/core/e_object.h:452-466 | A slot is disowned as `SlotAccounting.DisownedMeans` says, in place, with the vector of the object that dies. |
| SlotAccounting.DisownedMeans | src/core/e_object.h:416-466 | If the object loses its last owner, every weak reference to it is nil and no other slot changes; if it has another owner, only its count changes; a weak reference is detached. |
| SlotAccounting.GoneKeeps | src/core/e_object.h:416-466 | If every count is the number of owning slots and of owners elsewhere, and no weak reference is to a dead object, then that is so after a slot was disowned and given up, with the same owners elsewhere. |
| SlotAccounting.DisownedRangeKeeps | src/core/e_array.c:230-259 | So it is after any number of slots were disowned one after the other, and given up. |
| NestedDestruction.GoneIsPerformed | src/core/e_object.h:452-466 | For objects without contents, nested destruction comes to just that. |
| NestedDestruction.GivenUp | src/core/e_object.h:416-466 | When a slot outside all containers is disowned, every reference count is the number of owning slots, and of the same owners elsewhere, again, no weak reference is left to an object that has died, however deep it was nested, and the only slots that are gone, or have changed, are that slot, the slots of objects that have died, and weak references to these, which are nil. |
| NestedDestruction.DisownSlot | src/core/e_object.h:452-466 | The recursive calls do this, in the order of the original, and end. |
| NestedDestruction.Dispose | src/core/e_object.c:220-247 | An object disowns its slots first and clears the weak references to it after that, even those that its own items hold. |
| WeakReferences.Memory.Copy | src/core/e_object.h:690-752 | A copy owns the object, also if it was made from a weak reference. |
| WeakReferences.CopyMeans | src/core/e_object.h:690-752 | A copy is the same value, and one more owner if it is a reference. |
| SlotAccounting.CopiedKeeps | src/core/e_object.h:690-752 | Copying keeps all references accounted for, if the object of a copied reference is alive. |
| WeakReferences.Memory.Clone | src/core/e_object.h:641-683 | A clone of a weak reference is weak, and one of a strong reference owns. |
| SlotAccounting.ClonedKeeps | src/core/e_object.h:641-683 | Cloning keeps all references accounted for. |
| WeakReferences.Memory.Move | src/core/e_object.h:760-795 | The value is at the new address, with the same ownership and wiring. |
| SlotAccounting.MovedKeeps | src/core/e_object.h:760-795 | Moving does, too. |
| SlotBlocks.MoveSlots | src/core/e_array.c:34-62 | Moving a block of slots one by one, overlapping or not, moves the values and relocates each weak reference. |
| Arrays.Array.SetSize | src/core/e_array.c:34-62 | Items, ownership and everything outside the block stay, wherever the block moves to; all references stay accounted for. |
| Arrays.Array.Insert | src/core/e_array.c:195-227 | The sequence with one item inserted; one more owner; nothing else changes; all references stay accounted for. |
| Arrays.Array.SetIndex | src/core/e_array.c:148-170 | The sequence with one item replaced, after the old one was disowned; or extended, with nil in the gap; all references stay accounted for. |
| Arrays.Array.Delete | src/core/e_array.c:230-259 | The sequence without the range, after each of the values in it was disowned once; all references stay accounted for. |
| Arrays.Array.Clone | src/core/e_array.c:262-283 | A new array with the same items, each with one more owner or weakly wired like the original; all references stay accounted for. |
| Arrays.Array.Copy | src/core/e_array.c:326-358 | The part of the sequence that was asked for, or the exception for the bound that is violated; all references stay accounted for. |
| TableSearch.BinaryFind | src/core/e_table.c:151-166 | Some item with the hash code, or the complement of the lower bound and then there is none. |
| TableSearch.FindGroup | src/core/e_table.c:176-204 | The linear search of short tables and the binary search with backing up of long ones both arrive at the lower bound. |
| TableSearch.Find | src/core/e_table.c:176-262 | The first item with the key, or the complement of the lower bound, for any sorted list. |
| TableSearch.PlaceMeans | src/core/e_table.c:176-262 | An index is found if and only if the item there has the key, so it is the only one. |
| TableSearch.InsertSound | src/core/e_table.c:265-285 | A key that is not found belongs at the position that the search gives: order and uniqueness are kept. |
| TableSearch.SetRefines | src/core/e_table.c:265-285 | Setting a key changes what the table has for that key and for no other. |
| TableSearch.RemoveLookup | src/core/e_table.c:450-488 | Deleting a key removes that key and no other. |
| TableSearch.AddRefines | src/core/e_table.c:303-317 | While no object dies, adding a table gives the union, in which copies of the values of the added one win: what was a weak reference is an owner. |
| TableRuns.RunRefines | src/core/e_table.c:265-488 | After any sequence of operations, and any deaths of objects that values refer to weakly, a table is sorted, has no key twice, and has for every key what a finite map would have, where added values are copies. |
| TableUnion.InsertItems | src/core/e_table.c:303-317 | In memory, for two different tables: each key of the added table comes with a copy of its value, or with nil if that was a weak reference to an object that died on the way; all other keys keep their values; and elsewhere nothing changes but weak references to such objects; and all references stay accounted for. |
| TableUnion.InsertSelf | src/core/e_table.c:517-528 | Adding a table to itself uses an object after its destruction if and only if some value is the only owner of its object; otherwise nothing changes, except that weak references among the values are lost, so that the table is what it was if and only if there are none; and all references stay accounted for. |
| TableRuns.WeakKeyDies | src/core/e_table.c:265-285 | A key that is a weak reference spoils the table when its object dies, unless nil happens to have the same hash code and to be no other key. |
| Tables.Table.SetSize | src/core/e_table.c:42-78 | Items, ownership and everything outside the block stay, wherever the block moves to; all references stay accounted for. |
| Tables.Table.InsertItem | src/core/e_table.c:85-134 | The items with one more at the position given, in slots and hash codes alike, and every weak reference that moved relocated; all references stay accounted for. |
| Tables.Table.GetIndex | src/core/e_table.c:396-409 | A copy of the value of the map for the key, with its new owner, or XWRONGINDEX and no change; all references stay accounted for. |
| Tables.Table.SetIndex | src/core/e_table.c:265-285 | The table is the map update; a replaced value is disowned first, and the table stays sorted with strong keys; all references stay accounted for. |
| Tables.Table.Insert | src/core/e_table.c:435-447 | Only a key that the table does not have is inserted; otherwise nothing changes; all references stay accounted for. |
| Tables.Table.Delete | src/core/e_table.c:450-488 | The items without the one that was found, after its key and value were disowned; or XWRONGINDEX and no change; all references stay accounted for. |
| Tables.Table.Clear | src/core/e_table.c:450-467 | Every key and value is disowned once, and the table is empty; all references stay accounted for. |
| Tables.Table.Clone | src/core/e_table.c:357-382 | A new table with the same items, each with one more owner or weakly wired like the original; all references stay accounted for. |

## Left out

- The compiler, lexer, coder and symbol table. Their guarantees are the preconditions in `Safety.WellCoded`.
- Operators, casts, vectors, module loading, bindings and built-in functions: large switches or foreign calls without an invariant of their own.
- Instructions that are variants of the modelled ones (immediate and constant operands, several pushes in one, tuple and optional arguments, loops and jumps): they add nothing to calls, exceptions and ownership.
- Failing allocations, profiling, debug counters and the checks of EEL_VM_CHECKING.
- Registers of a new call are undefined in the original; here they read as nil.
- Function objects are kept alive by their modules, and constants by their functions; they are no part of the reference accounting.
- Objects in the VM model are arrays and their items. Weak references and cached strings are modelled separately, over memory slots and the string pool.
- The links of limbo lists, and repairing them when the heap moves: a limbo list is a sequence in its frame.
- The field `serial` of a call frame is not in the original. It makes it possible to say that a call is the same one as before, since frames reuse addresses.
- Runs.StepKeepsInvariant: is about the modelled instructions, and excludes the steps for which it would fail (`CallIff`, `NativeIff`, `ThrowReturnIff`, `FinishReturnIff`, `FinishResultIff`, `LandingIff`). Excluded without an exact condition, away from its own frame, is a native function that returns a result nobody wants while the result slot of the frame at `base` holds an object, or while that frame has no result slot, since the original reads before the heap then, and one that returns XRETURN, or a result with an object involved, to the frame of another native function.
- Runs.RunKeepsInvariant: the same, for each step of a run.
- Runs.ReferencesAccounted: the same, for each step of a run.
- VirtualMachine.VM.Step: covers the modelled instructions.
- CallTheorems.UpvaluesAlive: for runs in which every such call meets the condition of `CallIff`; what GETUVAL and SETUVAL do to the registers of a caller that they mistake for another function is not followed.
- VirtualMachine.VM.Invoke: does not model calling a native function directly from native code, only EEL functions (what becomes of the result of a native one is in `ReceiveInNative`); and requires the condition of `NativeIff`.
- VirtualMachine.VM.Finish: requires what `Runs.StepKeepsInvariant` requires of it.
- VirtualMachine.VM.Disown: does not detach weak references, which the objects of the VM model do not have.
- VirtualMachine.VM.CallC: ends where the native code takes over; what that code does is any sequence of `NativeOp` steps that follow the rules.
- WeakReferences.Memory.Disown: is about an object without contents; containers are destroyed in `NestedDestruction`.
- NestedDestruction.GivenUp: is about a slot outside all containers. Objects that refuse to be destroyed (strings, which go to the cache) are in `StringPool`.
- Arrays.Array.Delete: requires a range within the array, because the range check of the original lets the last index be equal to the length, and the loop then reads past the end.
- Arrays.Array.SetIndex: all references stay accounted for if the object of the new value is still alive when the old value has been disowned; the original would use it after its destruction otherwise. The same goes for `Tables.Table.SetIndex`.
- Arrays.Array.Insert: requires an index not beyond the end; the original reads uninitialised slots otherwise.
- Deleting items of arrays by value, and adding arrays (`a_add`): loops over the modelled operations.
- TableSearch.AddRefines: is about runs of `insert_items` in which no object dies; those in which one does are in `TableUnion.InsertItems`.
- Tables.Table.SetIndex: requires a key that is not an unwired weak reference. The original accepts one, and the table is no longer in order when its object dies: see `TableRuns.WeakKeyDies`.
- Tables.Table.Insert: the same, for the key to be inserted.
- Hash codes of real numbers: the original hashes the words before the number. The hash function is any function here that agrees with key equality.
- Default values of optional arguments are numbers here; in the original they are any constants of the function.
- Items of functions, which have names, since the VM model has no strings; indices with numbers are in `DataFlow.NotIndexed`. The conversion of a real index to 32 bits is not modelled.
- StringPool.Pool.Find: requires strings without null characters, since the original compares with `strncmp`. Buffers that the caller gives away (`eel_ps_nnew_grab`), emptying the cache on demand and closing the pool are not modelled.
- StringPool.Pool.NNew: the same, for the string to be created.
- Resize.Calculate: integers are unbounded; when they would overflow is the subject of `FitsIff` and `AppendFits`.
- Sfifo.SFifo.Init: requires a size for which the original returns.
- Sfifo.FifoCorrect: steps are sequentially consistent, with one writer and one reader; weak memory ordering and the spinning and user-space variants are not modelled.
- SharedState.OpensAndClosesAlternate: opening always succeeds; the error path of a failed opening is not modelled.
- ExceptionRegistry.Registry.Add: the calls take turns; concurrent ones are in `ConcurrentRegistration`, where accesses to single blocks are sequentially consistent.
- A list of exceptions without a terminator ends at its end here; the original reads on.
