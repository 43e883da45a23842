/** Process-wide state that the Rust adapter and the C layer share: the heap,
    as Box::new / Box::into_raw / Box::from_raw see it, and the trace of
    output calls (the printf calls of the C layer and the runs of the user's
    closures) in program order.  Raw pointers are allocation ids; null is
    `None`. */
module Runtime {

  datatype Option<+T> = None | Some(value: T)

  /** An allocation id; stands for the address of a heap cell. */
  type Addr = nat

  /** A user closure (`impl FnMut() + 'static`).  Its body is opaque: running it
      has the single observable effect of announcing its tag. */
  datatype FnMut = FnMut(tag: string)

  /** The two cell shapes the adapter allocates. */
  datatype Cell =
    | FnMutBox(closure: FnMut)    // Box<dyn FnMut()>: the closure itself
    | FnMutPtrBox(target: Addr)   // Box<*mut dyn FnMut()>: a thin handle to a FnMutBox

  /** One output call, as the trace records it. */
  datatype Event =
    | BeforeCall                   // "Before calling cb"
    | AfterCall                    // "After calling cb"
    | Invoked(tag: string)         // the closure with this tag ran
    | BadDeref(data: Option<Addr>) // the trampoline followed a handle that leads to no live
                                   // closure: undefined behaviour in the program

  /** True when the trampoline never followed a dangling handle. */
  predicate Faultless(log: seq<Event>)
  {
    forall i :: 0 <= i < |log| ==> !log[i].BadDeref?
  }

  /** Every live cell lies below `next`. */
  predicate AllBelow(cells: map<Addr, Cell>, next: Addr)
  {
    forall a :: a in cells ==> a < next
  }

  /** The global allocator.  Every live cell lies below `next`, and allocation
      takes `next`, so a new cell is never one that is live. */
  class Heap {
    var cells: map<Addr, Cell>
    var next: Addr

    ghost predicate Valid()
      reads this
    {
      AllBelow(cells, next)
    }

    constructor ()
      ensures Valid() && cells == map[] && next == 0
    {
      cells, next := map[], 0;
    }

    /** `Box::into_raw(Box::new(c))`: a fresh live cell holding `c`. */
    method IntoRaw(c: Cell) returns (a: Addr)
      requires Valid()
      modifies this
      ensures Valid()
      ensures a !in old(cells) && cells == old(cells)[a := c]
      ensures a == old(next) && next == old(next) + 1
    {
      a := next;
      cells := cells[a := c];
      next := next + 1;
    }

    /** `*p` on a raw pointer: defined only while the cell is live. */
    method Load(a: Addr) returns (c: Cell)
      requires a in cells
      ensures c == cells[a]
    {
      c := cells[a];
    }

    /** Dropping a Box reclaimed by `Box::from_raw`: the cell stops being live.
        Freeing a cell that is not live (a double free) is excluded. */
    method Free(a: Addr)
      requires a in cells
      modifies this
      ensures cells == old(cells) - {a} && next == old(next)
    {
      cells := cells - {a};
    }
  }

  /** The trace of output calls, in the order the program makes them.  This is
      not the order of the bytes on stdout, which C stdio and Rust buffer
      separately. */
  class Console {
    var log: seq<Event>

    constructor ()
      ensures log == []
    {
      log := [];
    }

    method Emit(e: Event)
      modifies this
      ensures log == old(log) + [e]
    {
      log := log + [e];
    }
  }
}
