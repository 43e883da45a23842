# Closure-to-C-callback adapter, modelled in Dafny

The program passes a heap-allocated Rust closure through a C callback API that
holds one global `(function, argument)` slot. The Rust adapter `Closure`
double-boxes the closure, `Box<*mut dyn FnMut()>` around `Box<dyn FnMut()>`,
so that a thin pointer to the outer box fits in a `void *` argument. It then
registers the trampoline `call_closure` with that pointer. `trigger` asks the C
layer to call the trampoline, and the trampoline dereferences twice and runs
the closure. Teardown, whether on re-registration or on drop, deregisters from
the C layer before it frees the boxes.

The model has five modules:

- `Runtime`: the shared process state. `Heap` is the allocator. Its
  `IntoRaw`, `Load` and `Free` methods stand for `Box::into_raw(Box::new(..))`,
  a raw `*p` read and dropping a reclaimed Box. Raw pointers are allocation ids
  and null is `None`. `Console` is the trace of output calls in program order. A closure `FnMut(tag)`
  is opaque: running it emits `Invoked(tag)`. If the trampoline follows a
  handle that leads to no live closure, the model emits `BadDeref`. In the
  program that is undefined behaviour.
- `Trampoline`: `call_closure`, meaning the double dereference `Target`, its
  observable `Effect`, and the method `CallClosure`. `FnPtr` lists the
  program's C-callable functions, and `call_closure` is the only one.
- `CCallback` (src/cb.c): the class `Registry` holds the two statics
  `cb`/`arg`. It has `RegisterCb`, `TriggerCb`, and the pure `TriggerEvents`,
  which says what one `trigger_cb` call prints and runs.
- `Adapter` (src/main.rs): the process state `Process`, which holds the heap,
  the C statics, the adapter's field `cb` (called `own`) and the output. It
  also holds the effect of each operation on that state (`DeallocStep`,
  `RegisterStep`, `TriggerStep`), built statement by statement, and the
  protocol invariant `Inv`. The class `Closure` performs the operations step by
  step on the `Heap`, `Registry` and `Console` objects. `DeallocCb`, `Register`,
  `Trigger` and `Drop` are each proved to keep `Inv` and to have exactly the
  effect of their step function.
- `Properties`: what the protocol guarantees, as lemmas about the step
  functions. It also has `Run`, which runs any sequence of calls, and
  `MainDemo`, the demo program driven through the class.

Teardown (`dealloc_cb`, src/main.rs:21-35) runs in this order. First it
calls `register_cb(null, null)`. The comment at src/main.rs:24-25 gives the
reason: otherwise the C layer keeps a dangling pointer. Then it reclaims both
boxes into the named bindings `_box_fnmut` and `_box_box_fnmut` and nulls
`self.cb`. The bindings are dropped only at the end of the `unsafe` block, in
reverse order of binding: the thin-pointer box is freed first and the closure
box second. `DeallocStages` lists the process state after each of these steps.
The class frees through `Closure.DropBox`, which may only free a cell if the
C slot cannot still reach it. So a teardown that frees through `DropBox` before it
deregisters does not verify.

## Model

| member | source | states |
|---|---|---|
| `Runtime.Heap.IntoRaw` | src/main.rs:52-58 | a Box turned into a raw pointer is a new cell that was not live before; nothing else in the heap changes |
| `Runtime.Heap.Load` | src/main.rs:40-41 | reading through a raw pointer (here `**cb`; also `*self.cb` at src/main.rs:30) is defined only while its cell is live, and yields that cell's contents |
| `Runtime.Heap.Free` | src/main.rs:30-33 | dropping a reclaimed Box ends exactly that cell's life; it may only be applied to a live cell (no double free) |
| `Trampoline.Target` | src/main.rs:38-42 | the double dereference succeeds only through a live thin-pointer box whose target is a live closure box, and it yields that closure |
| `Trampoline.Effect` | src/main.rs:38-42 | the trampoline runs a closure exactly when the double dereference succeeds |
| `Trampoline.TargetOfDoubleBox` | src/main.rs:38-42 | unboxing inverts the double boxing: a handle to the two boxes leads back to exactly the closure that was boxed |
| `Trampoline.CallClosure` | src/main.rs:38-43 | one call appends exactly one effect, running the closure the handle leads to |
| `CCallback.TriggerCallsStoredOnce` | src/cb.c:11-16 | with a non-null stored function, `trigger_cb` calls it exactly once, with the stored argument, between the two printed lines |
| `CCallback.TriggerNullCallsNothing` | src/cb.c:11-16 | with a null stored function nothing is called, so registering null disables later triggers |
| `CCallback.Registry.constructor` | src/cb.c:3-4 | both statics start out null |
| `CCallback.Registry.RegisterCb` | src/cb.c:6-9 | both statics are overwritten, whatever they held |
| `CCallback.Registry.TriggerCb` | src/cb.c:11-16 | the output grows by exactly what `TriggerEvents` says, and the statics are not modified |
| `Adapter.DeallocStages` | src/main.rs:26-33 | the teardown's states in code order (deregister, null the field, drop the thin-pointer box, drop the closure box) start at the old state and end with a null field; no stage allocates, prints or moves `next`, and each stage's cells are among the old ones |
| `Adapter.Closure.constructor` | src/main.rs:15-19 | a new adapter has a null `cb` and satisfies the protocol invariant |
| `Adapter.Closure.DropBox` | src/main.rs:30-33 | dropping a reclaimed box frees exactly that cell, and is allowed only when the C slot does not lead into it afterwards |
| `Adapter.Closure.DeallocCb` | src/main.rs:21-35 | keeps the invariant; every free goes through `DropBox`, so the deregistration must come first; the new process state is `DeallocStep` of the old one |
| `Adapter.Closure.Register` | src/main.rs:37-63 | keeps the invariant; the new process state is `RegisterStep` of the old one |
| `Adapter.Closure.Trigger` | src/main.rs:65-71 | keeps the invariant; the new process state is `TriggerStep` of the old one |
| `Adapter.Closure.Drop` | src/main.rs:74-77 | the C slot and the field end up null and exactly the adapter's cells are freed |
| `Properties.InitIsEmpty` | src/main.rs:15-19 | at program start the adapter owns nothing, the C statics are null, and the invariant holds |
| `Properties.DeallocEffect` | src/main.rs:21-35 | teardown clears the C slot and the field, frees exactly the two owned cells and changes nothing else |
| `Properties.DeallocIdempotent` | src/main.rs:21-22 | teardown on an empty adapter changes nothing, and a second teardown is a no-op |
| `Properties.DeallocDeregistersBeforeFreeing` | src/main.rs:24-33 | in every stage of the teardown the C slot is safe, and every stage in which a cell has been freed comes after the slot was cleared |
| `Properties.FreeingFirstWouldDangle` | src/main.rs:24-25 | freeing either box while still registered would leave the C slot dangling |
| `Properties.RegisterLayout` | src/main.rs:45-61 | after `register(f)`: old cells minus the old footprint, plus the closure box and the thin-pointer box at two new addresses, with `(call_closure, handle)` in the C slot |
| `Properties.FreshPairOwned` | src/main.rs:52-61 | that layout keeps the invariant, holds `f`, and owns exactly two cells that were not live before |
| `Properties.RegisterEffect` | src/main.rs:45-61 | after `register(f)` the adapter owns two fresh live cells holding `f`, the slot holds `(call_closure, handle)`, and the old cells are freed |
| `Properties.TriggerEffect` | src/main.rs:65-71 | `trigger` on an empty adapter does nothing; on a registered one it runs the held closure exactly once between the printed lines and changes nothing else |
| `Properties.SlotNeverDangles` | src/main.rs:58-61 | under the invariant the C argument is null, or it is the adapter's handle and is live |
| `Properties.Step` | src/main.rs:37-77 | every adapter operation keeps the invariant, only appends output, and never makes the trampoline follow a dangling handle (no `BadDeref`) |
| `Properties.Run` | src/main.rs:37-77 | any sequence of operations keeps the invariant, only appends output, and never makes the trampoline follow a dangling handle (no `BadDeref`) |
| `Properties.NoUseAfterFree` | src/main.rs:21-71 | from program start, whatever the calls, the trampoline never follows a freed handle |
| `Properties.TriggersRunCurrent` | src/main.rs:65-71 | with `g` held, `n` triggers run `g` exactly `n` times and change nothing but the output |
| `Properties.RegisterThenTriggers` | src/main.rs:45-71 | after `register(g)`, `n` triggers run `g` exactly `n` times |
| `Properties.LatestRegistrationWins` | src/main.rs:38-71 | after `register(f)` then `register(g)`, each trigger runs `g` exactly once and never `f` |
| `Properties.RepeatedTrigger` | src/main.rs:65-71 | a registered closure triggered three times runs three times |
| `Properties.LogScenario` | src/main.rs:37-71 | register A, trigger, register B, trigger twice: the closures run as A, B, B |
| `Properties.MainDemo` | src/main.rs:80-86 | the demo calls printf, runs its closure once, calls printf, and at the end the slot is null and nothing is left allocated |

## Left out

- Linkage and pointer casts: `extern "C"`, `mem::transmute` of null into a function pointer, the `c_void` casts, and the fat-pointer and vtable layout are not modelled. The null function pointer is `None`. In Rust, `extern "C" fn(*mut c_void)` may never be null, so the `transmute` of `ptr::null()` at src/main.rs:27 is itself undefined behaviour. `None` stands for the sound `Option<extern "C" fn(*mut c_void)>`, whose `None` is passed to C as a null pointer. The model's safety results (`Faultless`) mean only that no `BadDeref` happens. A pointer is an allocation id.
- Closure bodies, captured state and destructors are opaque. Running a closure emits its tag, and dropping its box only frees the cell.
- printf/println text: the output is abstract events, not the printed characters.
- Output buffering: the log records the order of the output calls, not the order of the bytes on stdout. C stdio (src/cb.c:12,15) and Rust's `Stdout` (src/main.rs:83) buffer separately. When stdout is not a terminal, glibc buffers it fully, so the two C lines can appear after the closure's output.
- Threads: the program has no locking, so only single-threaded sequential calls are modelled.
- Allocator reuse: the allocator never reuses an address. A real allocator may reuse one. The safety argument does not depend on this, because a freed handle is never left in the slot.
- Properties.RegisterEffect: the clause that the two new cells were not live before the call, even before the teardown, holds only because the allocator never reuses an address. `FreshPairOwned` rests on the same assumption.
- Properties.FreshPairOwned: every box is one heap cell. In Rust, `Box::new` of a closure that captures nothing, such as the one in `main` (src/main.rs:82-84), does not allocate. "Owns exactly two cells" is literal only for closures that capture state.
- Undefined behaviour: a bad dereference in the trampoline is recorded as a `BadDeref` event instead of crashing. The lemmas show that it never happens. The null function pointer made by `transmute` (src/main.rs:27) is not covered by these lemmas; see the linkage line above.
- Adapter.Closure.constructor: requires the C slot to be unregistered, so the model covers one adapter per process, as `main` uses it. With two adapters, one adapter's teardown would deregister the other's closure.
- Adapter.Closure.DeallocCb: requires the class invariant `Valid()`. In the program, the private field and the constructor guarantee it.
