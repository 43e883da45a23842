/** What the adapter's protocol guarantees: the C slot never holds a dangling
    argument, teardown deregisters before it frees, only the latest closure is
    ever run, once per trigger, and nothing is leaked. */
module Properties {
  import opened Runtime
  import opened Trampoline
  import opened CCallback
  import opened Adapter

  // ---- what each operation does ----

  /** A new adapter in a process whose C slot is unregistered holds nothing. */
  lemma InitIsEmpty()
    ensures Inv(Init()) && Init().own == None && Footprint(Init()) == {}
    ensures Init().cb == None && Init().arg == None
  {
  }

  /** Teardown deregisters, frees exactly the two owned cells, nulls the field
      and touches nothing else. */
  lemma DeallocEffect(w: Process)
    requires Inv(w)
    ensures var r := DeallocStep(w);
      && Inv(r) && r.own == None && Footprint(r) == {}
      && r.cb == None && r.arg == None
      && r.cells == w.cells - Footprint(w)
      && r.next == w.next && r.log == w.log
  {
  }

  /** On an empty adapter teardown changes nothing: it neither calls the C
      layer nor frees, so a second teardown is a no-op. */
  lemma DeallocIdempotent(w: Process)
    requires OwnsBoxes(w)
    ensures w.own == None ==> DeallocStep(w) == w
    ensures OwnsBoxes(DeallocStep(w)) && DeallocStep(DeallocStep(w)) == DeallocStep(w)
  {
  }

  /** The order inside teardown: every stage of `dealloc_cb` leaves the C slot
      safe, and every stage in which a cell has already been freed comes after
      the deregistration.  Reordering the stages so that a free comes first
      breaks both. */
  lemma DeallocDeregistersBeforeFreeing(w: Process)
    requires Inv(w)
    ensures var s := DeallocStages(w);
      && (forall i :: 0 <= i < |s| ==> SlotSafe(s[i]))
      && (forall i :: 0 <= i < |s| && s[i].cells != w.cells ==> s[i].cb == None && s[i].arg == None)
  {
  }

  /** Why the order matters: freeing either box while the C slot still holds
      the handle leaves the slot dangling. */
  lemma FreeingFirstWouldDangle(w: Process)
    requires Inv(w) && w.own.Some?
    ensures !SlotSafe(FreeCell(w, w.own.value))
    ensures !SlotSafe(FreeCell(w, w.cells[w.own.value].target))
  {
    var p := w.own.value;
    var q := w.cells[p].target;
    assert q != p;
  }

  /** The process state right after `register(f)`: the old cells minus the
      old footprint, plus the closure box and the thin-pointer box allocated
      at the next two addresses. */
  lemma RegisterLayout(w: Process, f: FnMut)
    requires Inv(w)
    ensures var q := w.next;
      RegisterStep(w, f) == Process(
        (w.cells - Footprint(w))[q := FnMutBox(f)][q + 1 := FnMutPtrBox(q)],
        q + 2, Some(CallClosureFn), Some(q + 1), Some(q + 1), w.log)
  {
    DeallocEffect(w);
  }

  /** A state laid out as `RegisterLayout` describes keeps the invariant,
      holds `f`, and owns exactly the two new cells, neither of which was live
      before. */
  lemma FreshPairOwned(w: Process, f: FnMut, r: Process)
    requires Inv(w)
    requires r == Process(
      (w.cells - Footprint(w))[w.next := FnMutBox(f)][w.next + 1 := FnMutPtrBox(w.next)],
      w.next + 2, Some(CallClosureFn), Some(w.next + 1), Some(w.next + 1), w.log)
    ensures && Inv(r) && r.own.Some? && Current(r) == Some(f)
      && r.cb == Some(CallClosureFn) && r.arg == r.own
      && |Footprint(r)| == 2 && Footprint(r) !! w.cells.Keys
      && r.cells.Keys == (w.cells.Keys - Footprint(w)) + Footprint(r)
      && r.log == w.log
  {
    var q := w.next;
    assert forall a :: a in r.cells ==> a < q + 2;
    assert Boxed(r.cells, q + 1);
    assert Footprint(r) == {q, q + 1};
    assert |{q, q + 1}| == 2;
    TargetOfDoubleBox(r.cells, q + 1, q, f);
  }

  /** After `register(f)` the adapter owns two freshly allocated live cells
      holding `f`, the C slot holds exactly `(call_closure, handle)`, and the
      previously owned cells are freed. */
  lemma RegisterEffect(w: Process, f: FnMut)
    requires Inv(w)
    ensures var r := RegisterStep(w, f);
      && Inv(r) && r.own.Some? && Current(r) == Some(f)
      && r.cb == Some(CallClosureFn) && r.arg == r.own
      && |Footprint(r)| == 2 && Footprint(r) !! w.cells.Keys
      && r.cells.Keys == (w.cells.Keys - Footprint(w)) + Footprint(r)
      && r.log == w.log
  {
    RegisterLayout(w, f);
    FreshPairOwned(w, f, RegisterStep(w, f));
  }

  /** `trigger` on an empty adapter does nothing; on a registered one it runs
      the held closure exactly once, between the two printed lines, and changes
      nothing but the output. */
  lemma TriggerEffect(w: Process)
    requires Inv(w)
    ensures w.own.None? ==> TriggerStep(w) == w
    ensures w.own.Some? ==> Current(w).Some?
    ensures w.own.Some? ==>
      TriggerStep(w) == w.(log := w.log + [BeforeCall, Invoked(Current(w).value.tag), AfterCall])
  {
    if w.own.Some? {
      TriggerCallsStoredOnce(CallClosureFn, w.arg, w.cells);
    }
  }

  /** The memory-safety invariant: the C argument is null, or it is the
      adapter's handle and leads to a live closure. */
  lemma SlotNeverDangles(w: Process)
    requires Inv(w)
    ensures SlotSafe(w)
    ensures w.arg.None? || (w.arg == w.own && w.arg.value in w.cells)
  {
  }

  // ---- any sequence of calls ----

  datatype Op = Register(f: FnMut) | Trigger | Teardown

  function Step(w: Process, op: Op): (r: Process)
    requires Inv(w)
    ensures Inv(r) && SlotSafe(r)
    ensures w.log <= r.log
    ensures Faultless(w.log) ==> Faultless(r.log)
  {
    match op
    case Register(f) =>
      RegisterEffect(w, f);
      RegisterStep(w, f)
    case Trigger =>
      TriggerEffect(w);
      TriggerStep(w)
    case Teardown =>
      DeallocEffect(w);
      DeallocStep(w)
  }

  /** Running the calls one after another keeps the invariant, so the C layer
      never holds a dangling argument and the trampoline never follows a freed
      handle. */
  function Run(w: Process, ops: seq<Op>): (r: Process)
    requires Inv(w)
    ensures Inv(r) && SlotSafe(r)
    ensures w.log <= r.log
    ensures Faultless(w.log) ==> Faultless(r.log)
    decreases |ops|
  {
    if ops == [] then w else Run(Step(w, ops[0]), ops[1..])
  }

  /** From program start, whatever the calls, the trampoline never follows a dangling handle
      and the slot is safe. */
  lemma NoUseAfterFree(ops: seq<Op>)
    ensures Faultless(Run(Init(), ops).log) && SlotSafe(Run(Init(), ops))
  {
    InitIsEmpty();
  }

  // ---- which closures run ----

  /** The tags of the closures that ran, in order. */
  function Invocations(log: seq<Event>): seq<string>
  {
    if log == [] then []
    else (if log[0].Invoked? then [log[0].tag] else []) + Invocations(log[1..])
  }

  lemma {:induction false} InvocationsAppend(a: seq<Event>, b: seq<Event>)
    ensures Invocations(a + b) == Invocations(a) + Invocations(b)
    decreases |a|
  {
    if a == [] {
      assert a + b == b;
    } else {
      assert (a + b)[1..] == a[1..] + b;
      InvocationsAppend(a[1..], b);
    }
  }

  lemma InvocationsOfRound(t: string)
    ensures Invocations([BeforeCall, Invoked(t), AfterCall]) == [t]
  {
    var round := [BeforeCall, Invoked(t), AfterCall];
    assert round[1..] == [Invoked(t), AfterCall];
    assert round[1..][1..] == [AfterCall];
    assert round[1..][1..][1..] == [];
    assert Invocations([AfterCall]) == [];
    assert Invocations([Invoked(t), AfterCall]) == [t];
  }

  /** `n` consecutive `trigger` calls. */
  function Triggers(w: Process, n: nat): Process
    decreases n
  {
    if n == 0 then w else Triggers(TriggerStep(w), n - 1)
  }

  /** With `g` registered, `n` triggers run `g` exactly `n` times and nothing
      else, and change nothing but the output. */
  lemma {:induction false} TriggersRunCurrent(w: Process, g: FnMut, n: nat)
    requires Inv(w) && Current(w) == Some(g)
    ensures Triggers(w, n) == w.(log := Triggers(w, n).log)
    ensures Invocations(Triggers(w, n).log) == Invocations(w.log) + seq(n, _ => g.tag)
    decreases n
  {
    if n == 0 {
      assert seq(n, _ => g.tag) == [];
    } else {
      TriggerEffect(w);
      var w' := TriggerStep(w);
      var round := [BeforeCall, Invoked(g.tag), AfterCall];
      assert w' == w.(log := w.log + round);
      InvocationsAppend(w.log, round);
      InvocationsOfRound(g.tag);
      TriggersRunCurrent(w', g, n - 1);
      assert [g.tag] + seq(n - 1, _ => g.tag) == seq(n, _ => g.tag);
    }
  }

  /** After `register(g)`, `n` triggers run `g` exactly `n` times. */
  lemma RegisterThenTriggers(w: Process, g: FnMut, n: nat)
    requires Inv(w)
    ensures var r := Triggers(RegisterStep(w, g), n);
      Inv(r) && Current(r) == Some(g)
      && Invocations(r.log) == Invocations(w.log) + seq(n, _ => g.tag)
  {
    RegisterEffect(w, g);
    TriggersRunCurrent(RegisterStep(w, g), g, n);
  }

  /** After `register(f)` then `register(g)`, each trigger runs `g` exactly
      once and `f` never. */
  lemma LatestRegistrationWins(w: Process, f: FnMut, g: FnMut, n: nat)
    requires Inv(w)
    ensures var r := Triggers(RegisterStep(RegisterStep(w, f), g), n);
      Invocations(r.log) == Invocations(w.log) + seq(n, _ => g.tag)
  {
    RegisterEffect(w, f);
    RegisterThenTriggers(RegisterStep(w, f), g, n);
  }

  /** A registered closure, triggered three times, runs three times. */
  lemma RepeatedTrigger(w: Process, h: FnMut)
    requires Inv(w)
    ensures Invocations(Triggers(RegisterStep(w, h), 3).log) == Invocations(w.log) + [h.tag, h.tag, h.tag]
  {
    RegisterThenTriggers(w, h, 3);
    assert seq(3, _ => h.tag) == [h.tag, h.tag, h.tag];
  }

  /** Register "A", trigger once; register "B", trigger twice: the closures
      run in the order A, B, B. */
  lemma LogScenario()
    ensures var r1 := Triggers(RegisterStep(Init(), FnMut("A")), 1);
      Invocations(Triggers(RegisterStep(r1, FnMut("B")), 2).log) == ["A", "B", "B"]
  {
    InitIsEmpty();
    assert Invocations(Init().log) == [];
    RegisterThenTriggers(Init(), FnMut("A"), 1);
    var r1 := Triggers(RegisterStep(Init(), FnMut("A")), 1);
    assert seq(1, _ => "A") == ["A"];
    RegisterThenTriggers(r1, FnMut("B"), 2);
    assert seq(2, _ => "B") == ["B", "B"];
  }

  /** The demo program: make an adapter, register a closure, trigger once, and
      drop the adapter at the end of scope.  It calls printf, runs its closure
      once, and calls printf again, and afterwards the C slot is null and nothing is left
      allocated. */
  method MainDemo() returns (log: seq<Event>, slotCleared: bool, leaked: map<Addr, Cell>)
    ensures log == [BeforeCall, Invoked("Hello from Rust"), AfterCall]
    ensures slotCleared && leaked == map[]
  {
    var ext := new Registry();
    var heap := new Heap();
    var out := new Console();
    var closure := new Closure(ext, heap, out);
    ghost var s0 := closure.State();
    closure.Register(FnMut("Hello from Rust"));
    RegisterEffect(s0, FnMut("Hello from Rust"));
    ghost var s1 := closure.State();
    closure.Trigger();
    TriggerEffect(s1);
    ghost var s2 := closure.State();
    closure.Drop();
    DeallocEffect(s2);
    log := out.log;
    slotCleared := ext.cb == None && ext.arg == None;
    leaked := heap.cells;
  }
}
