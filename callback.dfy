/** The C layer (src/cb.c): one global registration slot holding a callback
    function and its argument, with `register_cb` to fill it and `trigger_cb`
    to call it. */
module CCallback {
  import opened Runtime
  import opened Trampoline

  /** What one `trigger_cb` call adds to the output trace, given the stored
      function `cb`, the stored argument `arg` and the heap. */
  function TriggerEvents(cb: Option<FnPtr>, arg: Option<Addr>, cells: map<Addr, Cell>): seq<Event>
  {
    [BeforeCall] + (if cb.Some? then [Effect(arg, cells)] else []) + [AfterCall]
  }

  /** A stored non-null function is called exactly once, with the stored
      argument, between the two printed lines. */
  lemma TriggerCallsStoredOnce(f: FnPtr, arg: Option<Addr>, cells: map<Addr, Cell>)
    ensures TriggerEvents(Some(f), arg, cells) == [BeforeCall, Effect(arg, cells), AfterCall]
  {
  }

  /** With a null stored function nothing is called: only the two lines appear.
      So registering null disables every later trigger. */
  lemma TriggerNullCallsNothing(arg: Option<Addr>, cells: map<Addr, Cell>)
    ensures TriggerEvents(None, arg, cells) == [BeforeCall, AfterCall]
  {
  }

  /** The two statics `cb` and `arg`. */
  class Registry {
    var cb: Option<FnPtr>
    var arg: Option<Addr>

    /** Both statics start out null. */
    constructor ()
      ensures cb == None && arg == None
    {
      cb, arg := None, None;
    }

    /** `register_cb(c, a)`: both statics are overwritten, whatever they held. */
    method RegisterCb(c: Option<FnPtr>, a: Option<Addr>)
      modifies this
      ensures cb == c && arg == a
    {
      cb := c;
      arg := a;
    }

    /** `trigger_cb()`: print, call the stored function with the stored argument
        if it is not null, print.  The statics are only read. */
    method TriggerCb(heap: Heap, out: Console)
      modifies out
      ensures cb == old(cb) && arg == old(arg)
      ensures out.log == old(out.log) + TriggerEvents(cb, arg, heap.cells)
    {
      out.Emit(BeforeCall);
      if cb.Some? {
        match cb.value
        case CallClosureFn => CallClosure(arg, heap, out);
      }
      out.Emit(AfterCall);
    }
  }
}
