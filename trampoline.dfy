/** The trampoline `call_closure` that the adapter hands to the C layer: it
    receives the opaque argument, reads it as a pointer to a pointer to a
    closure, dereferences twice and runs the closure. */
module Trampoline {
  import opened Runtime

  /** The C-callable functions of the program (`extern "C" fn(*mut c_void)`):
      `call_closure` is the only one.  A null function pointer is `None`. */
  datatype FnPtr = CallClosureFn

  /** The closure that a handle leads to by the double dereference, when both
      cells on the way are live and have the shapes the adapter allocates. */
  function Target(data: Option<Addr>, cells: map<Addr, Cell>): (r: Option<FnMut>)
    ensures r.Some? ==> data.Some? && data.value in cells && cells[data.value].FnMutPtrBox?
    ensures r.Some? ==> cells[data.value].target in cells
                        && cells[cells[data.value].target] == FnMutBox(r.value)
  {
    match data
    case None => None
    case Some(p) =>
      if p in cells && cells[p].FnMutPtrBox? then
        var q := cells[p].target;
        if q in cells && cells[q].FnMutBox? then Some(cells[q].closure) else None
      else None
  }

  /** The observable effect of one call `call_closure(data)`. */
  function Effect(data: Option<Addr>, cells: map<Addr, Cell>): (e: Event)
    ensures e.Invoked? <==> Target(data, cells).Some?
  {
    match Target(data, cells)
    case Some(f) => Invoked(f.tag)
    case None => BadDeref(data)
  }

  /** Unboxing inverts the double boxing: a handle to a live thin-pointer box
      whose target is a live closure box leads back to exactly that closure. */
  lemma TargetOfDoubleBox(cells: map<Addr, Cell>, p: Addr, q: Addr, f: FnMut)
    requires p in cells && cells[p] == FnMutPtrBox(q)
    requires q in cells && cells[q] == FnMutBox(f)
    ensures Target(Some(p), cells) == Some(f)
    ensures Effect(Some(p), cells) == Invoked(f.tag)
  {
  }

  /** `call_closure(data)`: `(**(data as *mut *mut dyn FnMut()))()`. */
  method CallClosure(data: Option<Addr>, heap: Heap, out: Console)
    modifies out
    ensures out.log == old(out.log) + [Effect(data, heap.cells)]
  {
    if data.None? || data.value !in heap.cells {
      out.Emit(BadDeref(data));
      return;
    }
    var outer := heap.Load(data.value);
    if !outer.FnMutPtrBox? || outer.target !in heap.cells {
      out.Emit(BadDeref(data));
      return;
    }
    var inner := heap.Load(outer.target);
    if !inner.FnMutBox? {
      out.Emit(BadDeref(data));
      return;
    }
    out.Emit(Invoked(inner.closure.tag));
  }
}
