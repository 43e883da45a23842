/** The Rust adapter `Closure` (src/main.rs): it owns at most one double-boxed
    closure and keeps the C slot pointing at it.  The functions below give the
    effect of each operation on the whole process state; the class `Closure`
    performs the operations step by step and is proved to have those effects. */
module Adapter {
  import opened Runtime
  import opened Trampoline
  import CCallback

  /** Everything the adapter's operations read or change: the heap (`cells`,
      `next`), the C statics (`cb`, `arg`), the adapter's field `cb` (`own`)
      and the trace of output calls (`log`). */
  datatype Process = Process(
    cells: map<Addr, Cell>,
    next: Addr,
    cb: Option<FnPtr>,
    arg: Option<Addr>,
    own: Option<Addr>,
    log: seq<Event>)

  // ---- single statements of the source, on the process state ----

  /** `Box::into_raw(Box::new(c))` on the process state; the new cell is at
      `w.next`.  (`Heap.IntoRaw` performs it on the heap object.) */
  function AllocCell(w: Process, c: Cell): Process
  {
    w.(cells := w.cells[w.next := c], next := w.next + 1)
  }

  /** Dropping a reclaimed Box, on the process state. */
  function FreeCell(w: Process, a: Addr): Process
    requires a in w.cells
  {
    w.(cells := w.cells - {a})
  }

  /** `register_cb(f, a)`, on the process state. */
  function StoreSlot(w: Process, f: Option<FnPtr>, a: Option<Addr>): Process
  {
    w.(cb := f, arg := a)
  }

  /** `trigger_cb()`, on the process state. */
  function FireSlot(w: Process): Process
  {
    w.(log := w.log + CCallback.TriggerEvents(w.cb, w.arg, w.cells))
  }

  // ---- ownership ----

  /** `p` is a live thin-pointer box whose target is a live closure box. */
  predicate Boxed(cells: map<Addr, Cell>, p: Addr)
  {
    p in cells && cells[p].FnMutPtrBox? && cells[p].target in cells && cells[cells[p].target].FnMutBox?
  }

  /** What the Rust type of the field promises: a non-null `cb` points to a
      live `Box<*mut dyn FnMut()>` whose target is a live `Box<dyn FnMut()>`. */
  predicate OwnsBoxes(w: Process)
  {
    w.own.Some? ==> Boxed(w.cells, w.own.value)
  }

  /** The cells the adapter owns. */
  function Footprint(w: Process): set<Addr>
  {
    if w.own.Some? && Boxed(w.cells, w.own.value)
    then {w.own.value, w.cells[w.own.value].target}
    else {}
  }

  /** The closure the adapter currently holds. */
  function Current(w: Process): Option<FnMut>
  {
    Target(w.own, w.cells)
  }

  /** The protocol invariant: the allocator is consistent, the adapter owns its
      boxes, the C argument is exactly the adapter's handle, and the C function
      is `call_closure` exactly when a handle is registered. */
  predicate Inv(w: Process)
  {
    && AllBelow(w.cells, w.next)
    && OwnsBoxes(w)
    && w.arg == w.own
    && w.cb == (if w.own.Some? then Some(CallClosureFn) else None)
  }

  /** The C slot never holds a dangling argument: either nothing is
      registered, or the registered handle leads to a live closure. */
  predicate SlotSafe(w: Process)
  {
    w.cb.Some? ==> Target(w.arg, w.cells).Some?
  }

  // ---- the adapter's operations ----

  /** Program start: the C statics are null, nothing is allocated, nothing is
      printed, and `Closure::new()` has made an adapter with a null `cb`. */
  function Init(): Process
  {
    Process(map[], 0, None, None, None, [])
  }

  /** `dealloc_cb`, state by state: when `cb` is not null, deregister from the
      C layer (main.rs:26-29), read `*self.cb` and reclaim both boxes
      (main.rs:30-31), null the field (main.rs:32); the reclaimed boxes are then
      dropped at the end of the block in reverse order of binding, the
      thin-pointer box first and the closure box second. */
  function DeallocStages(w: Process): (s: seq<Process>)
    requires OwnsBoxes(w)
    ensures |s| >= 1 && s[0] == w
    ensures s[|s| - 1].own == None
    ensures forall i :: 0 <= i < |s| ==>
              s[i].cells.Keys <= w.cells.Keys && s[i].next == w.next && s[i].log == w.log
  {
    if w.own.None? then [w]
    else
      var p := w.own.value;
      var w1 := StoreSlot(w, None, None);
      var q := w1.cells[p].target;
      var w2 := w1.(own := None);
      var w3 := FreeCell(w2, p);
      [w, w1, w2, w3, FreeCell(w3, q)]
  }

  /** The state `dealloc_cb` leaves: the last of its stages. */
  function DeallocStep(w: Process): Process
    requires OwnsBoxes(w)
  {
    var s := DeallocStages(w);
    s[|s| - 1]
  }

  /** `register(f)`: tear down, box the closure, box the fat pointer, store the
      thin handle in `cb`, and hand `(call_closure, cb)` to the C layer. */
  function RegisterStep(w: Process, f: FnMut): Process
    requires OwnsBoxes(w)
  {
    var w1 := DeallocStep(w);
    var q := w1.next;
    var w2 := AllocCell(w1, FnMutBox(f));
    var p := w2.next;
    var w3 := AllocCell(w2, FnMutPtrBox(q));
    var w4 := w3.(own := Some(p));
    StoreSlot(w4, Some(CallClosureFn), Some(p))
  }

  /** `trigger()`: call `trigger_cb` only when `cb` is not null. */
  function TriggerStep(w: Process): Process
  {
    if w.own.Some? then FireSlot(w) else w
  }

  // ---- the adapter as the program runs it ----

  class Closure {
    var cb: Option<Addr>
    /** The process-global C statics, allocator and output trace the adapter reaches. */
    const ext: CCallback.Registry
    const heap: Heap
    const out: Console

    ghost function State(): Process
      reads this, ext, heap, out
    {
      Process(heap.cells, heap.next, ext.cb, ext.arg, cb, out.log)
    }

    ghost predicate Valid()
      reads this, ext, heap, out
    {
      Inv(State())
    }

    /** `Closure::new()`.  The C slot must not be registered by anybody else:
        the model covers one adapter per process. */
    constructor (ext: CCallback.Registry, heap: Heap, out: Console)
      requires ext.cb == None && ext.arg == None && heap.Valid()
      ensures this.ext == ext && this.heap == heap && this.out == out
      ensures cb == None && Valid()
    {
      this.cb := None;
      this.ext := ext;
      this.heap := heap;
      this.out := out;
    }

    /** Dropping a Box reclaimed from the raw pointer `a`.  Allowed only when
        freeing `a` leaves the C slot safe: a teardown that frees while the C
        layer can still reach the cell does not verify. */
    method DropBox(a: Addr)
      requires a in heap.cells
      requires ext.cb.Some? ==> Target(ext.arg, heap.cells - {a}).Some?
      modifies heap
      ensures heap.cells == old(heap.cells) - {a} && heap.next == old(heap.next)
    {
      heap.Free(a);
    }

    method DeallocCb()
      requires Valid()
      modifies this, ext, heap
      ensures Valid() && State() == DeallocStep(old(State()))
    {
      if cb.Some? {
        ext.RegisterCb(None, None);
        var handle := heap.Load(cb.value);
        var outer := cb.value;
        var inner := handle.target;
        cb := None;
        DropBox(outer);
        DropBox(inner);
      }
    }

    method Register(f: FnMut)
      requires Valid()
      modifies this, ext, heap
      ensures Valid() && State() == RegisterStep(old(State()), f)
    {
      DeallocCb();
      var fnmutPtr := heap.IntoRaw(FnMutBox(f));
      var handle := heap.IntoRaw(FnMutPtrBox(fnmutPtr));
      cb := Some(handle);
      ext.RegisterCb(Some(CallClosureFn), Some(handle));
    }

    method Trigger()
      requires Valid()
      modifies out
      ensures Valid() && State() == TriggerStep(old(State()))
    {
      if cb.Some? {
        ext.TriggerCb(heap, out);
      }
    }

    /** `Drop::drop`: the same teardown as `dealloc_cb`. */
    method Drop()
      requires Valid()
      modifies this, ext, heap
      ensures Valid() && State() == DeallocStep(old(State()))
      ensures ext.cb == None && ext.arg == None && cb == None
      ensures heap.cells == old(heap.cells) - old(Footprint(State()))
    {
      DeallocCb();
    }
  }
}
