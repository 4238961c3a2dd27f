/** The overlay DLL's cycle shim: guest cycles are batched in a 32-bit counter and
    handed to the host before every callback that could observe them. */
module CycleShim {

  const MAX: int := 0xFFFF_FFFF
  type Cycles = c: int | 0 <= c <= MAX

  /** A call of generated code into the shim: charging cycles, a callback that flushes
      first (dispatch, interrupts, GTE, syscalls, timed loads, ...), or one that does
      not (call logging, multiply latencies). */
  datatype Call = Advance(cycles: Cycles) | Flushing(id: int) | Quiet(id: int)

  /** A host callback and the cycle total that the host has received by then. */
  datatype Event = Event(id: int, flushing: bool, seen: nat)

  datatype State = State(pending: Cycles, delivered: nat, log: seq<Event>)

  // ---- the batched shim, step by step ----

  /** `forwards` says whether the host supplied `advance_cycles`. */
  function Flushed(st: State, forwards: bool): State {
    st.(pending := 0, delivered := if forwards then st.delivered + st.pending else st.delivered)
  }

  /** `s_pending_cycles += cycles` on a 32-bit counter. */
  function Add32(a: Cycles, b: Cycles): Cycles { (a + b) % (MAX + 1) }

  function Step(st: State, c: Call, forwards: bool): State {
    match c
    case Advance(n) =>
      var st' := if n > MAX - st.pending then Flushed(st, forwards) else st;
      st'.(pending := Add32(st'.pending, n))
    case Flushing(id) =>
      var st' := Flushed(st, forwards);
      st'.(log := st'.log + [Event(id, true, st'.delivered)])
    case Quiet(id) => st.(log := st.log + [Event(id, false, st.delivered)])
  }

  function Batched(st: State, calls: seq<Call>, forwards: bool): State
    decreases |calls|
  {
    if calls == [] then st else Batched(Step(st, calls[0], forwards), calls[1..], forwards)
  }

  // ---- the reference: every cycle is forwarded at once ----

  datatype Host = Host(delivered: nat, log: seq<Event>)

  function Immediate(h: Host, calls: seq<Call>): Host
    decreases |calls|
  {
    if calls == [] then h else
    Immediate(match calls[0]
              case Advance(n) => h.(delivered := h.delivered + n)
              case Flushing(id) => h.(log := h.log + [Event(id, true, h.delivered)])
              case Quiet(id) => h.(log := h.log + [Event(id, false, h.delivered)]),
              calls[1..])
  }

  function Requested(calls: seq<Call>): nat
    decreases |calls|
  {
    if calls == [] then 0 else (if calls[0].Advance? then calls[0].cycles else 0) + Requested(calls[1..])
  }

  /** Same callbacks in the same order; a flushing one sees exactly what the unbatched
      host would have received, a quiet one lags by less than one counter. */
  ghost predicate SameView(b: seq<Event>, h: seq<Event>) {
    && |b| == |h|
    && forall i :: 0 <= i < |b| ==>
         && b[i].id == h[i].id && b[i].flushing == h[i].flushing
         && (if b[i].flushing then b[i].seen == h[i].seen else b[i].seen <= h[i].seen <= b[i].seen + MAX)
  }

  ghost predicate Refines(st: State, h: Host) {
    st.delivered + st.pending == h.delivered && SameView(st.log, h.log)
  }

  /** The batched shim refines immediate forwarding over every call sequence. */
  lemma {:induction false} BatchedRefinesImmediate(st: State, h: Host, calls: seq<Call>)
    requires Refines(st, h)
    ensures Refines(Batched(st, calls, true), Immediate(h, calls))
    decreases |calls|
  {
    if calls != [] {
      var h' := match calls[0]
                case Advance(n) => h.(delivered := h.delivered + n)
                case Flushing(id) => h.(log := h.log + [Event(id, true, h.delivered)])
                case Quiet(id) => h.(log := h.log + [Event(id, false, h.delivered)]);
      BatchedRefinesImmediate(Step(st, calls[0], true), h', calls[1..]);
    }
  }

  /** The 32-bit addition of a step never wraps. */
  lemma CounterNeverWraps(st: State, n: Cycles, forwards: bool)
    ensures var before := if n > MAX - st.pending then 0 else st.pending;
            Step(st, Advance(n), forwards).pending == before + n
  {}

  lemma {:induction false} ImmediateTotal(h: Host, calls: seq<Call>)
    ensures Immediate(h, calls).delivered == h.delivered + Requested(calls)
    decreases |calls|
  {
    if calls != [] {
      var h' := match calls[0]
                case Advance(n) => h.(delivered := h.delivered + n)
                case Flushing(id) => h.(log := h.log + [Event(id, true, h.delivered)])
                case Quiet(id) => h.(log := h.log + [Event(id, false, h.delivered)]);
      ImmediateTotal(h', calls[1..]);
    }
  }

  const START := State(0, 0, [])

  /** Cycles are conserved over every call sequence exactly when the host takes them. */
  lemma ConservedIff(forwards: bool)
    ensures forwards <==> forall calls :: (var st := Batched(START, calls, forwards);
                                           st.delivered + st.pending == Requested(calls))
  {
    if forwards {
      forall calls ensures (var st := Batched(START, calls, true); st.delivered + st.pending == Requested(calls)) {
        BatchedRefinesImmediate(START, Host(0, []), calls);
        ImmediateTotal(Host(0, []), calls);
      }
    } else {
      var calls := [Advance(1), Flushing(0)];
      assert calls[1..] == [Flushing(0)] && calls[1..][1..] == [];
      var st1 := Step(START, Advance(1), false);
      var st2 := Step(st1, Flushing(0), false);
      assert Batched(st2, [], false) == st2;
      assert Batched(st1, calls[1..], false) == st2;
      assert Requested([]) == 0 && Requested(calls[1..]) == 0;
      assert Requested(calls) == 1 && st2.delivered + st2.pending == 0;
      assert (var st := Batched(START, calls, false); st.delivered + st.pending != Requested(calls));
    }
  }

  lemma {:induction false} BatchedConcat(st: State, a: seq<Call>, b: seq<Call>, forwards: bool)
    ensures Batched(st, a + b, forwards) == Batched(Batched(st, a, forwards), b, forwards)
    ensures Requested(a + b) == Requested(a) + Requested(b)
    decreases |a|
  {
    if a == [] {
      assert a + b == b;
    } else {
      assert (a + b)[0] == a[0] && (a + b)[1..] == a[1..] + b;
      BatchedConcat(Step(st, a[0], forwards), a[1..], b, forwards);
    }
  }

  /** Calls without a flushing callback forward nothing, as long as the counter has room. */
  lemma {:induction false} HeldBack(st: State, calls: seq<Call>, forwards: bool)
    requires st.pending + Requested(calls) <= MAX && forall i :: 0 <= i < |calls| ==> !calls[i].Flushing?
    ensures Batched(st, calls, forwards).delivered == st.delivered
    ensures Batched(st, calls, forwards).pending == st.pending + Requested(calls)
    decreases |calls|
  {
    if calls != [] { HeldBack(Step(st, calls[0], forwards), calls[1..], forwards); }
  }

  /** So after a flushing callback the host has every cycle requested before it, and until
      the counter is full no other, however many quiet callbacks there are. */
  lemma DeliveredUpToFlush(st: State, a: seq<Call>, id: int, b: seq<Call>)
    requires Requested(b) <= MAX && forall i :: 0 <= i < |b| ==> !b[i].Flushing?
    ensures var end := Batched(st, a + [Flushing(id)] + b, true);
            end.delivered == st.delivered + st.pending + Requested(a) && end.pending == Requested(b)
  {
    var h, before, flush := Host(st.delivered + st.pending, st.log), Batched(st, a, true), [Flushing(id)];
    BatchedRefinesImmediate(st, h, a);
    ImmediateTotal(h, a);
    BatchedConcat(st, a, flush, true);
    BatchedConcat(st, a + flush, b, true);
    BatchedOne(before, Flushing(id));
    HeldBack(Batched(before, flush, true), b, true);
  }

  lemma BatchedOne(st: State, c: Call)
    ensures Batched(st, [c], true) == Step(st, c, true)
  {
    assert [c][1..] == [];
  }

  // ---- the shim itself ----

  class Shim {
    const forwards: bool
    var pending: Cycles
    var delivered: nat
    var log: seq<Event>

    ghost function View(): State
      reads this
    {
      State(pending, delivered, log)
    }

    constructor (forwards: bool)
      ensures View() == START && this.forwards == forwards
    {
      this.forwards := forwards;
      pending, delivered, log := 0, 0, [];
    }

    method Flush()
      modifies this
      ensures View() == Flushed(old(View()), forwards)
    {
      var cycles := pending;
      pending := 0;
      if cycles != 0 && forwards { delivered := delivered + cycles; }
    }

    method AdvanceCycles(cycles: Cycles)
      modifies this
      ensures View() == Step(old(View()), Advance(cycles), forwards)
    {
      if cycles > MAX - pending { Flush(); }
      pending := Add32(pending, cycles);
    }

    /** Every forwarding entry point that flushes before it calls the host. */
    method FlushingCallback(id: int)
      modifies this
      ensures View() == Step(old(View()), Flushing(id), forwards)
    {
      Flush();
      log := log + [Event(id, true, delivered)];
    }

    method QuietCallback(id: int)
      modifies this
      ensures View() == Step(old(View()), Quiet(id), forwards)
    {
      log := log + [Event(id, false, delivered)];
    }

    method Perform(c: Call)
      modifies this
      ensures View() == Step(old(View()), c, forwards)
    {
      match c
      case Advance(n) => AdvanceCycles(n);
      case Flushing(id) => FlushingCallback(id);
      case Quiet(id) => QuietCallback(id);
    }

    method Run(calls: seq<Call>)
      modifies this
      ensures View() == Batched(old(View()), calls, forwards)
    {
      assert calls[0..] == calls;
      for i := 0 to |calls|
        invariant Batched(View(), calls[i..], forwards) == Batched(old(View()), calls, forwards)
      {
        BatchedNext(View(), calls, i, forwards);
        Perform(calls[i]);
      }
    }
  }

  lemma BatchedNext(st: State, calls: seq<Call>, i: nat, forwards: bool)
    requires i < |calls|
    ensures Batched(st, calls[i..], forwards) == Batched(Step(st, calls[i], forwards), calls[i + 1..], forwards)
  {
    assert calls[i..][0] == calls[i] && calls[i..][1..] == calls[i + 1..];
  }
}
