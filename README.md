# FlingOS kernel task and `stelem` emitter, modelled in Dafny

This project models two pieces of the FlingOS kernel and compiler.

**The kernel task's deferred system calls** (`KernelTask.cs`). A system call
that cannot finish at once is parked. `SyscallHandler` takes a
`DeferredSyscallInfo` descriptor from a free queue of 256, stamps it with the
caller's process and thread ids, appends it to the pending queue and wakes the
deferred-syscalls thread. That thread drains the pending queue in order. For
each descriptor it finishes the call with `HandleDeferredSystemCall`. Unless
the call stays `Deferred`, it delivers the result with `EndDeferredSystemCall`,
which writes the caller's `Return1..Return4` and wakes the caller. Either way
it zeroes the descriptor and returns it to the free queue. `HandleIRQ` walks
the process list for an IRQ line. It switches to each subscribed process and
calls its handler, stops at the first handler that returns 0, and switches
back to the interrupted thread if it switched at all.

**The x86-32 emitter for the CIL `stelem` family** (`Stelem.cs`, ECMA-335
Partition III, sections 4.26 and 4.27). `Convert` maps the opcode to a store
width and appends a fixed sequence of ops:

- a null check of the array reference;
- a signed range check of the index against the array's length;
- the value pops;
- the element-size lookup from the element type;
- the address computation (index times element size, plus the end of the array
  object's own fields);
- the width-specific store.

It then pops three entries off the compiler's virtual stack. The emitted ops
are a datatype (`X86.ASMOp`). A small interpreter (`X86.Run`) gives them a
meaning on a 32-bit machine, so that what the emitted code *does* can be
stated and proved. Read with [ESP] as the value, [ESP+4] as the index and
[ESP+8] as the array reference, it throws on a null array and throws on an
index outside `[0, length)`. Otherwise it writes exactly one store of `StoreWidth(op)`
bytes at the element's address: 1, 2 or 4 by opcode, and 4 for `stelem` with a
token whatever the size of the element type it names. That is the stack layout of a value that takes
one stack slot: every opcode except `stelem.i8`, and except `stelem` with a
token naming a value type wider than 4 bytes. For `stelem.i8` the code reads the wrong slots; see
Findings.

Modules:

- `Words` (words.dfy): 32-bit words, wrap-around, two's-complement reading.
- `KernelTask` (kernel_task.dfy): the descriptor pool as a class with the two
  queues as `seq` fields, the drain loop, result delivery, IRQ dispatch.
- `X86` (x86.dfy): the emitted ops and their execution.
- `Stelem` (stelem.dfy): the opcode-to-width map, the emitted fragments,
  `allFieldsOffset`, and `Convert` over a conversion state.
- `StelemSemantics` (stelem_semantics.dfy): what running the emitted code
  does, and the two findings below.

Collaborators the source calls but does not define are inputs of the model:

- `KernelTask.Collaborators` holds the pipe manager's answers, the new
  thread's id and the caller's read/write request record.
- `replies` holds what each process's IRQ handler returns.
- `threads` is a map from (process id, thread id) to thread, standing for
  `ProcessManager`'s lookups.
- The type tables the emitter consults are given values: `ArrayTypeInfo` (the
  array class's named fields) and `TypeFieldOffsets`. `GetFieldInfo` finds a
  field of the array class by name.

## Model

| member | source | states |
|---|---|---|
| `KernelTask.DeferredSyscalls.constructor` | Kernel/Libraries/Kernel.Core/Tasks/KernelTask.cs:34-39 | The pool starts with 256 fresh descriptors, all in the free queue, zeroed, with the pending queue empty; the pool invariant `Valid` holds. |
| `KernelTask.DeferredSyscalls.SyscallHandler` | Kernel/Libraries/Kernel.Core/Tasks/KernelTask.cs:434-460 | The inner handler's result code and Return2..4 come back unchanged. On `Deferred` or `Deferred_PermitActions`, exactly the head of the free queue moves to the tail of the pending queue, stamped with the caller's ids, the worker is woken and no other descriptor changes. Otherwise both queues, the wake flag and every descriptor are unchanged. Every descriptor stays in exactly one queue, with 256 in all. |
| `KernelTask.HandleDeferredSystemCall` | Kernel/Libraries/Kernel.Core/Tasks/KernelTask.cs:217-389 | The result is `Unhandled` iff the call number has no case, and `Deferred` iff the call is a blocking read/write or a wait that is still waiting; it is never `Deferred_PermitActions`. A non-blocking read/write gives `OK` iff the transfer completed, else `Fail`. The four manager calls give `OK` iff the manager agreed, else `Fail`. A wait that is not waiting gives `Fail`, and `StartThread` gives `OK`. Return2 is the new thread id for `StartThread`, the outpoint count (as `uint`) for a successful `GetNumPipeOutpoints`, and otherwise unchanged; Return3 and Return4 are never changed. |
| `KernelTask.EndDeferredSystemCall` | Kernel/Libraries/Kernel.Core/Tasks/KernelTask.cs:391-399 | The thread's Return1..Return4 become the result and the three values, it is woken, and its call number is kept. |
| `KernelTask.Delivered` | Kernel/Libraries/Kernel.Core/Tasks/KernelTask.cs:391-399 | A delivered thread is awake, keeps its call number and holds the completion's four result registers. |
| `KernelTask.Finish` | Kernel/Libraries/Kernel.Core/Tasks/KernelTask.cs:189-201 | A drained call that stays parked leaves the thread exactly as it was: no register written, not woken. Any other drained call leaves the thread awake with Return1 in {OK, Fail, Unhandled}; when it is `Unhandled`, Return2..4 are the thread's own earlier values. |
| `KernelTask.FinishDeferredCall` | Kernel/Libraries/Kernel.Core/Tasks/KernelTask.cs:189-201 | Running the finishing logic on the thread's saved registers, then delivering unless `Deferred`, changes the thread exactly as `Finish` says. |
| `KernelTask.FinishOnThread` | Kernel/Libraries/Kernel.Core/Tasks/KernelTask.cs:184-201 | The thread found by the descriptor's ids is finished and no other thread changes. |
| `KernelTask.FinishAt` | Kernel/Libraries/Kernel.Core/Tasks/KernelTask.cs:184-201 | Finishing one thread's call keeps the set of threads, finishes that thread and leaves every other thread as it was. |
| `KernelTask.DeferredSyscalls.PopPending` | Kernel/Libraries/Kernel.Core/Tasks/KernelTask.cs:180 | Popping takes the head of the pending queue. The popped descriptor is in neither queue but still counted once, so free + pending + in flight is 256. |
| `KernelTask.DeferredSyscalls.TakeAndFinish` | Kernel/Libraries/Kernel.Core/Tasks/KernelTask.cs:180-201 | The head of the pending queue is popped and left in flight, with free + pending + in flight equal to 256. The call of exactly the thread whose ids it carries is finished, and no other thread changes. |
| `KernelTask.DeferredSyscalls.Recycle` | Kernel/Libraries/Kernel.Core/Tasks/KernelTask.cs:204-211 | The in-flight descriptor is zeroed and appended to the free queue, which restores the pool invariant; the pending queue and its ids are unchanged. |
| `KernelTask.DeferredSyscalls.DrainOne` | Kernel/Libraries/Kernel.Core/Tasks/KernelTask.cs:172-212 | One pass moves the head of the pending queue to the tail of the free queue, whether or not the call stays deferred, and keeps the pool invariant. It finishes the call of exactly the thread whose ids the descriptor carried. |
| `KernelTask.DeferredSyscalls.DrainQueued` | Kernel/Libraries/Kernel.Core/Tasks/KernelTask.cs:172-213 | Draining empties the pending queue and appends its descriptors, in order and zeroed, to the free queue, keeping the pool invariant. The threads end as `DrainSpec` says: the pending calls finished one after another, in queue order. |
| `KernelTask.DrainSpec` | Kernel/Libraries/Kernel.Core/Tasks/KernelTask.cs:172-213 | The reference definition of a drain: the pending calls finished one after another, in queue order, over the same set of threads. `KernelTask.DrainSpecSnoc`, `KernelTask.DrainSpecLeavesOthers` and `KernelTask.DrainSpecFinishesOnce` state what it does to each thread. |
| `KernelTask.DrainSpecSnoc` | Kernel/Libraries/Kernel.Core/Tasks/KernelTask.cs:172-213 | Draining one more call extends the drain of the earlier ones by that call. |
| `KernelTask.DrainSpecLeavesOthers` | Kernel/Libraries/Kernel.Core/Tasks/KernelTask.cs:172-213 | A thread with no pending call is untouched by the drain. |
| `KernelTask.DrainSpecFinishesOnce` | Kernel/Libraries/Kernel.Core/Tasks/KernelTask.cs:172-213 | A thread with exactly one pending call ends as that call's finishing logic leaves it: a result delivered to it, or untouched if it stays deferred. |
| `KernelTask.DeferredSyscallInfo.constructor` | Kernel/Libraries/Kernel.Core/Tasks/KernelTask.cs:12-16 | A new descriptor carries process id 0 and thread id 0, the default values of its two fields. |
| `KernelTask.TransferResult` | Kernel/Libraries/Kernel.Core/Tasks/KernelTask.cs:316-383 | A read or write gives `Deferred` iff the request is blocking. A non-blocking one gives `OK` iff the pipe manager reports the transfer complete, and `Fail` otherwise. |
| `KernelTask.MoveHead` | Kernel/Libraries/Kernel.Core/Tasks/KernelTask.cs:447-453 | Moving the head of either queue to the tail of the other keeps every descriptor in exactly one queue. |
| `KernelTask.InFirstNotInSecond` | Kernel/Libraries/Kernel.Core/Tasks/KernelTask.cs:180 | No descriptor is in both queues. |
| `KernelTask.HandleIRQ` | Kernel/Libraries/Kernel.Core/Tasks/KernelTask.cs:407-432 | The calls into the process manager and the handlers are: for each process `Invoked` lists, in that order, a switch to it followed by a call of its handler for the line; then one switch back to the interrupted process and thread iff the list is non-empty. |
| `KernelTask.Invoked` | Kernel/Libraries/Kernel.Core/Tasks/KernelTask.cs:414-425 | No contract of its own: the process indices whose handlers the loop calls. `KernelTask.InvokedExactly`, `KernelTask.InvokedIncreasing` and `KernelTask.InvokedInRange` state which they are. |
| `KernelTask.HandlerCalls` | Kernel/Libraries/Kernel.Core/Tasks/KernelTask.cs:419-421 | No contract of its own: for each given process, a switch to it followed by a call of its handler for the line. `KernelTask.HandleIRQ`'s contract uses it. |
| `KernelTask.InvokedExactly` | Kernel/Libraries/Kernel.Core/Tasks/KernelTask.cs:414-425 | Process j's handler is called iff j is subscribed to the line and every subscribed process before j returned non-zero. |
| `KernelTask.InvokedIncreasing` | Kernel/Libraries/Kernel.Core/Tasks/KernelTask.cs:414-425 | Handlers are called in strictly increasing process-list order, so each is called at most once. |
| `KernelTask.InvokedInRange` | Kernel/Libraries/Kernel.Core/Tasks/KernelTask.cs:414 | Only processes in the list have their handlers called. |
| `KernelTask.SwitchBackIffSubscriber` | Kernel/Libraries/Kernel.Core/Tasks/KernelTask.cs:428-431 | The switch back happens iff some process is subscribed to the line. |
| `Words.ToUInt32` | Kernel/Libraries/Kernel.Core/Tasks/KernelTask.cs:256 | `(uint)n` keeps the low 32 bits of the signed count. |
| `Words.ToUInt32RoundTrip` | Kernel/Libraries/Kernel.Core/Tasks/KernelTask.cs:256 | Reading the stored word back as signed gives the count again. |
| `Stelem.StoreWidth` | Kernel/Drivers/Compiler/Architectures/x86_32/ILOps/Stelem.cs:55-95 | The width is 1 iff the opcode is `stelem.i1`, 2 iff it is `stelem.i2`, and 4 for every other non-float opcode, `stelem.i8` included. |
| `Stelem.HighestOffsetField` | Kernel/Drivers/Compiler/Architectures/x86_32/ILOps/Stelem.cs:284 | The chosen field has the largest offset, and no earlier field has that offset: the first element of a stable descending order by offset. |
| `Stelem.HighestOffsetFieldUnique` | Kernel/Drivers/Compiler/Architectures/x86_32/ILOps/Stelem.cs:284 | Any field meeting that description is the chosen one. |
| `Stelem.AllFieldsOffset` | Kernel/Drivers/Compiler/Architectures/x86_32/ILOps/Stelem.cs:284-286 | The result is the largest field offset plus that field's size: its heap size for a value type, else its stack size. |
| `Stelem.CheckAndScaleWritesNothing` | Kernel/Drivers/Compiler/Architectures/x86_32/ILOps/Stelem.cs:131-279 | The checks, the pops, the element-size lookup and the scaling contain no store to memory. |
| `Stelem.StoreCodeWrites` | Kernel/Drivers/Compiler/Architectures/x86_32/ILOps/Stelem.cs:302-316 | The store fragment of a reachable width is a page-fault marker followed by the one store the opcode selects. |
| `Stelem.SingleStore` | Kernel/Drivers/Compiler/Architectures/x86_32/ILOps/Stelem.cs:295-316 | The whole emitted sequence writes memory exactly once, and that write is its last op: `mov [EAX], CL` for `stelem.i1`, `mov [EAX], CX` for `stelem.i2`, `mov [EAX], ECX` otherwise. |
| `Stelem.FourByteLayoutOnly` | Kernel/Drivers/Compiler/Architectures/x86_32/ILOps/Stelem.cs:131-244 | For every non-float opcode the code reads the array reference from [ESP+8] and the index from [ESP+4]. It never reads [ESP+12] and never pops EDX. |
| `Stelem.ILConversionState.AppendAll` | Kernel/Drivers/Compiler/Architectures/x86_32/ILOps/Stelem.cs:132-139 | A run of `Append` calls adds the ops to the output in order and leaves the virtual stack alone. |
| `Stelem.ILConversionState.PopStack` | Kernel/Drivers/Compiler/Architectures/x86_32/ILOps/Stelem.cs:319-321 | A pop removes exactly the top entry of the virtual stack. |
| `Stelem.Convert` | Kernel/Drivers/Compiler/Architectures/x86_32/ILOps/Stelem.cs:51-322 | The float variants give `NotSupported` with nothing appended and the stack unchanged. With no `elemType` field, `FieldNotFound` after only the null check; with `elemType` but no `length` field, `FieldNotFound` after the null check and the index load; the stack is unchanged in both cases. With both fields, the field list is non-empty, the full sequence for the opcode's width is appended in order, and the stack loses exactly its top three entries. |
| `Stelem.NullAndIndexChecks` | Kernel/Drivers/Compiler/Architectures/x86_32/ILOps/Stelem.cs:122-217 | The null check is appended, then the index load once `elemType` is found, then the rest of the index check once `length` is found. A missing field stops the appending at that point. The result is true iff both fields exist, and the virtual stack is unchanged. |
| `Stelem.IndexCheck` | Kernel/Drivers/Compiler/Architectures/x86_32/ILOps/Stelem.cs:192-217 | The index check's emission: the index load (its first two ops) is appended before the lookup of `length` at line 197, the rest of the check only when that lookup succeeds; the result says whether it did, and the virtual stack is unchanged. |
| `Stelem.AddressAndStore` | Kernel/Drivers/Compiler/Architectures/x86_32/ILOps/Stelem.cs:238-321 | The pops, the element-size lookup, the scaling, the offset and the store are appended in that order, and exactly the top three entries of the virtual stack are removed. |
| `Stelem.GetFieldInfo` | Kernel/Drivers/Compiler/Architectures/x86_32/ILOps/Stelem.cs:171-197 | The lookup finds the first field with the given name, and finds nothing iff no field has that name. |
| `Stelem.FieldOffsetFound` | Kernel/Drivers/Compiler/Architectures/x86_32/ILOps/Stelem.cs:171-197 | The `length` and `elemType` offsets the emitted code uses are the `OffsetInBytes` of exactly the fields `GetFieldInfo` finds. |
| `Stelem.NullCheckCode` | Kernel/Drivers/Compiler/Architectures/x86_32/ILOps/Stelem.cs:131-139 | No contract of its own: the ops of the null check. `StelemSemantics.NullCheckRun` states what they do, and `Stelem.CheckAndScaleWritesNothing` that they store nothing. |
| `Stelem.IndexCheckCode` | Kernel/Drivers/Compiler/Architectures/x86_32/ILOps/Stelem.cs:193-217 | No contract of its own: the ops of the index check. `StelemSemantics.IndexCheckRun` states what they do. |
| `Stelem.ValuePopCode` | Kernel/Drivers/Compiler/Architectures/x86_32/ILOps/Stelem.cs:238-244 | It pops exactly the dwords above the array reference's slot ([ESP+8], or [ESP+12] for width 8), one more than lie above the index's slot. Its last pop puts the index in EBX. |
| `Stelem.ElementSizeCode` | Kernel/Drivers/Compiler/Architectures/x86_32/ILOps/Stelem.cs:246-274 | No contract of its own: the ops of the element-size lookup. `StelemSemantics.ElementSizeRun` states what they do. |
| `Stelem.ScaleCode` | Kernel/Drivers/Compiler/Architectures/x86_32/ILOps/Stelem.cs:276-279 | It multiplies by EBX and pushes no EDX, so nothing saves EDX across `mul`. Its last op pops the array reference into EBX. |
| `Stelem.OffsetCode` | Kernel/Drivers/Compiler/Architectures/x86_32/ILOps/Stelem.cs:289-291 | No contract of its own: the two adds. `StelemSemantics.OffsetRun` states what they do, and `Stelem.OffsetCodeWritesNothing` that they store nothing. |
| `Stelem.OffsetCodeWritesNothing` | Kernel/Drivers/Compiler/Architectures/x86_32/ILOps/Stelem.cs:289-291 | The two adds store nothing to memory. |
| `Stelem.StoreCode` | Kernel/Drivers/Compiler/Architectures/x86_32/ILOps/Stelem.cs:295-316 | No contract of its own: the width-specific store. `Stelem.StoreCodeWrites`, `StelemSemantics.StoreRun` and `StelemSemantics.Store8Run` state what it writes. |
| `Stelem.StelemCode` | Kernel/Drivers/Compiler/Architectures/x86_32/ILOps/Stelem.cs:131-316 | No contract of its own: the fragments in the order `Convert` appends them. `Stelem.SingleStore`, `Stelem.FourByteLayoutOnly` and `StelemSemantics.StelemExecution` state its properties. |
| `Stelem.ILConversionState.constructor` | Kernel/Drivers/Compiler/Architectures/x86_32/ILOps/Stelem.cs:51 | A conversion state starts with no output and the given virtual stack. |
| `Stelem.ILConversionState.Append` | Kernel/Drivers/Compiler/Architectures/x86_32/ILOps/Stelem.cs:132-139 | One op is added at the end of the output, and the virtual stack is left alone. |
| `StelemSemantics.ElementSize` | Kernel/Drivers/Compiler/Architectures/x86_32/ILOps/Stelem.cs:246-274 | The element size the code reads is a 32-bit word: `Size` when the low bit of the `IsValueType` byte is set, else `StackSize`. |
| `StelemSemantics.NullCheckRun` | Kernel/Drivers/Compiler/Architectures/x86_32/ILOps/Stelem.cs:131-139 | The null check throws `NullReferenceException` iff the array reference is 0, and otherwise falls through with the stack and memory unchanged. |
| `StelemSemantics.IndexLowerRun` | Kernel/Drivers/Compiler/Architectures/x86_32/ILOps/Stelem.cs:205-210 | `cmp eax, 0; jge` throws iff the index is negative as a signed word. |
| `StelemSemantics.IndexUpperRun` | Kernel/Drivers/Compiler/Architectures/x86_32/ILOps/Stelem.cs:212-217 | `cmp eax, ebx; jl` throws iff the signed index is not below the signed length. |
| `StelemSemantics.IndexCheckRun` | Kernel/Drivers/Compiler/Architectures/x86_32/ILOps/Stelem.cs:193-217 | The range check throws `IndexOutOfRangeException` iff the signed index is negative or not below the signed length, before any write. Otherwise the stack and memory are unchanged. |
| `StelemSemantics.ValuePopRun` | Kernel/Drivers/Compiler/Architectures/x86_32/ILOps/Stelem.cs:238-244 | The value lands in ECX, its high dword in EDX when the width is 8, and the index in EBX; those slots leave the stack. |
| `StelemSemantics.ElementSizeRun` | Kernel/Drivers/Compiler/Architectures/x86_32/ILOps/Stelem.cs:246-274 | The lookup leaves `ElementSize` in EAX. The other registers, the stack (the pushed element type is popped again on both branches) and memory are as before. |
| `StelemSemantics.ScaleRun` | Kernel/Drivers/Compiler/Architectures/x86_32/ILOps/Stelem.cs:276-279 | `mul ebx` leaves the 64-bit product in EDX:EAX, and `pop ebx` puts the array reference in EBX. |
| `StelemSemantics.OffsetRun` | Kernel/Drivers/Compiler/Architectures/x86_32/ILOps/Stelem.cs:289-291 | EBX becomes the array reference plus `allFieldsOffset`, and EAX becomes that plus the scaled index, both wrapping at 32 bits. |
| `StelemSemantics.AddressRun` | Kernel/Drivers/Compiler/Architectures/x86_32/ILOps/Stelem.cs:276-291 | After scaling and offsetting, EAX holds `ElementAddress`: array reference + `allFieldsOffset` + index × element size, modulo 2^32. |
| `StelemSemantics.StoreRun` | Kernel/Drivers/Compiler/Architectures/x86_32/ILOps/Stelem.cs:302-316 | A store of 1, 2 or 4 bytes writes the low bytes of ECX at EAX and nothing else. |
| `StelemSemantics.Store8Run` | Kernel/Drivers/Compiler/Architectures/x86_32/ILOps/Stelem.cs:295-301 | The 8-byte store writes ECX at EAX and then EDX at EAX + 4. |
| `StelemSemantics.ChecksRun` | Kernel/Drivers/Compiler/Architectures/x86_32/ILOps/Stelem.cs:131-274 | For any code after the element-size lookup: a null array throws `NullReferenceException`, and an out-of-range index throws `IndexOutOfRangeException`, both before any write. Otherwise the rest runs with the element size in EAX, the index in EBX, the value in ECX (and EDX) and the array reference on top of the stack. |
| `StelemSemantics.EmittedChecksRun` | Kernel/Drivers/Compiler/Architectures/x86_32/ILOps/Stelem.cs:131-274 | The same three outcomes for the check fragments `Convert` emits. |
| `StelemSemantics.NarrowTailRun` | Kernel/Drivers/Compiler/Architectures/x86_32/ILOps/Stelem.cs:276-316 | Scaling, offsetting and a 1, 2 or 4-byte store write exactly the low bytes of the value at the element's address and pop the array reference. |
| `StelemSemantics.StelemExecution` | Kernel/Drivers/Compiler/Architectures/x86_32/ILOps/Stelem.cs:131-316 | For every non-float opcode, with [ESP] read as the value, [ESP+4] as the index and [ESP+8] as the array reference (the layout of a one-slot value, which `stelem.i8` does not have; see Findings), the emitted code throws `NullReferenceException` on a null array and `IndexOutOfRangeException` on an index outside `[0, length)`, both with memory untouched. Otherwise it writes exactly one store, of the low `StoreWidth(op)` bytes of the value at `ElementAddress`, and the three slots are gone from the stack. |
| `StelemSemantics.ChecksPass` | Kernel/Drivers/Compiler/Architectures/x86_32/ILOps/Stelem.cs:131-279 | Once both checks pass, the emitted code of any width runs on into the scaling with the registers and stack set as above. |
| `StelemSemantics.WideTailRun` | Kernel/Drivers/Compiler/Architectures/x86_32/ILOps/Stelem.cs:276-301 | As emitted, the 8-byte tail writes ECX at the element's address and the high half of index × size above it. |
| `StelemSemantics.StelemI8ReadsIndexAsArray` | Kernel/Drivers/Compiler/Architectures/x86_32/ILOps/Stelem.cs:131-139 | As emitted, `stelem.i8` with a 64-bit value over index 0 and a non-null array throws `NullReferenceException` and writes nothing. |
| `StelemSemantics.EightBytePathLosesHighDword` | Kernel/Drivers/Compiler/Architectures/x86_32/ILOps/Stelem.cs:238-301 | The emitted 8-byte path, once the checks pass, stores the low dword correctly. Above it, it stores the high half of index × element size instead of the value's high dword, which is 0 for index 0. |
| `Stelem.CorrectedScaleCode` | Kernel/Drivers/Compiler/Architectures/x86_32/ILOps/Stelem.cs:276-279 | For every width but 8 it is the scaling as written. For width 8 it is the same two ops, with EDX pushed before `mul` and popped right after it. |
| `Stelem.CorrectedStelemCode` | Kernel/Drivers/Compiler/Architectures/x86_32/ILOps/Stelem.cs:131-316 | For every width but 8 it is exactly the emitted sequence. For width 8 it is two ops longer: the EDX save and restore. |
| `Stelem.IntendedStoreWidth` | Kernel/Drivers/Compiler/Architectures/x86_32/ILOps/Stelem.cs:93-95 | The width is 8 iff the opcode is `stelem.i8`, and `StoreWidth` otherwise. |
| `StelemSemantics.CorrectedScaleRun` | Kernel/Drivers/Compiler/Architectures/x86_32/ILOps/Stelem.cs:276-279 | With EDX saved across `mul`, EDX is unchanged, EAX holds the low dword of the product and EBX the array reference. |
| `StelemSemantics.CorrectedWideTailRun` | Kernel/Drivers/Compiler/Architectures/x86_32/ILOps/Stelem.cs:276-301 | The corrected 8-byte tail writes the value's low dword at the element's address and its high dword right above it. |
| `StelemSemantics.CorrectedStelemI8Execution` | Kernel/Drivers/Compiler/Architectures/x86_32/ILOps/Stelem.cs:131-316 | The corrected `stelem.i8` has the same null and range checks on the 8-byte layout. On success it writes exactly the value's two dwords at the element's address and pops four slots. |
| `StelemSemantics.CorrectedAgreesElsewhere` | Kernel/Drivers/Compiler/Architectures/x86_32/ILOps/Stelem.cs:55-95 | For every opcode but `stelem.i8`, the corrected width and code are exactly the emitted ones. |

## Left out

- The outer `while (!Terminating)` loop of `DeferredSyscallsThread_Main` and its `Sleep_Indefinitely` are not modelled: the loop does not terminate, and sleeping is scheduler work. The inner drain loop is modelled as `DrainQueued`. `_Wake` is a boolean flag.
- The rest of `Main` is not modelled: syscall registration, thread and process creation, sleeps and the pipe-forwarding loop. `IRQ1`, the console logging and the commented-out scheduler disable/enable are not modelled either.
- Concurrency is not modelled. The source does not serialise the queue pops and pushes of the drain loop with `SyscallHandler`, and the model runs them one at a time.
- The `Queue` class is not part of this model. Its `Push` and `Pop` are modelled as first-in first-out on a `seq`, with fixed capacity 256.
- `KernelTask.DeferredSyscalls.SyscallHandler`: requires a non-empty free queue when the call is deferred. The source pops without a bound check, so popping an empty queue is not modelled.
- `KernelTask.Thread`: `Return1` holds the `SystemCallResults` value itself. The source stores `(uint)result`, and the enum's numeric values are not part of this model.
- The pipe manager, `CreateThread`, `GetObject`, the process manager's lookups and the caller's memory (`EnableAccessToMemoryOfProcess` and the request records read through raw addresses) are not modelled. Their answers are the fields of `Collaborators` and the `threads` map, and a thread that is not in the map is outside the model.
- `Param1..Param3` are not modelled, since they only reach the collaborators. The effects of `ReadPipe`/`WritePipe` on the caller's state are not modelled either: the source leaves them to the pipe manager.
- `KernelTask.HandleDeferredSystemCall`: `Unhandled` can be delivered to the caller. It is delivered for a call number without a case, because the drain loop only withholds `Deferred`. The model follows the code in this.
- `KernelTask.HandleIRQ`: the process list, the handlers' replies and the ids of the current process and thread are fixed inputs. The source re-reads `Processes.Count` and `Processes[i]` on each pass (lines 414-416), so a list changed by a handler is not modelled. The `(int)num` cast in `IsSet` (line 417) and the `(int)currThread.Id` cast are not modelled. `IRQHandler` is called without a null check; the model always has a handler to call.
- `Stelem.Convert`: requires three entries on the virtual stack, which the source assumes without checking.
- `Stelem.Convert`: `GetFieldInfo` is not part of this model. It is modelled as finding the first field with the name. How the source fails when the field is missing is unknown, so a missing `elemType` or `length` field is modelled only as `FieldNotFound` at the point of the lookup (lines 171 and 197).
- `Stelem.Convert`: for `stelem` with a token, the resolved element type is not looked at, and the width is 4 as in the source. A value type wider than 4 bytes then meets the same layout problem as `stelem.i8` (see Findings). A value type narrower than 4 bytes takes one slot, but its element gets a 4-byte store (lines 304-308) while the stride is its `Size` (lines 246-274), so the store spills into the next element, or past the array's end for the last ones; `StelemSemantics.StelemExecution` states this store as it is. The corrected code covers only `stelem.i8`.
- `Module.ResolveType`, the `elementType` assignments and the commented-out element-type check are not modelled, since they emit nothing. The dead `isFloat` path is not modelled either.
- `InsertPageFaultDetection` (GlobalMethods is not part of this model) is an op that does nothing when run.
- The interpreter in module `X86` is not modelled on the real machine. It covers only the ops the emitter uses. Memory is a map, where an unmapped address reads as 0. Stores are recorded as a list of writes and are not read back. Jumps go forward to a label, and `test` takes only the immediate 1.
- `Stelem.Convert` models the code as written, with `stelem.i8` given width 4. The corrected code (`Stelem.CorrectedStelemCode`) stands beside it; see Findings.

## Findings

| source | as written | input that shows it | evidently intended | confidence | as-written member | corrected member |
|---|---|---|---|---|---|---|
| Kernel/Drivers/Compiler/Architectures/x86_32/ILOps/Stelem.cs:93-95 | `stelem.i8` leaves `sizeToPop` at its default of 4 (line 55). So does `stelem` with a token (lines 62-69), whatever element type the token names, so a value type wider than 4 bytes has the same problem. The code therefore takes the 4-byte stack layout: the array reference comes from [ESP+8] and the index from [ESP+4] (lines 131-132 and 193-194). For a 64-bit value those slots hold the index and the value's high dword. | Stack, from the top: value low dword, value high dword, index 0, a non-null array reference. The code reads 0 as the array reference and throws `NullReferenceException`. | `sizeToPop = 8` for `stelem.i8`, the layout that the `== 8` displacements, the EDX pop and the two-dword store are written for. | not executed | `StelemSemantics.StelemI8ReadsIndexAsArray` | `StelemSemantics.CorrectedStelemI8Execution` |
| Kernel/Drivers/Compiler/Architectures/x86_32/ILOps/Stelem.cs:277 | On the 8-byte path, the value's high dword is popped into EDX (lines 239-242). `mul ebx` then overwrites EDX with the high half of index × element size, and lines 298-300 store that EDX as the value's high dword. | Width 8, index 0, a value whose high dword is 1, and an array that passes both checks. The dword stored at element address + 4 is 0. | EDX is saved across the `mul` (push before and pop after), so the value's high dword is stored. | not executed | `StelemSemantics.EightBytePathLosesHighDword` | `StelemSemantics.CorrectedStelemI8Execution` |
