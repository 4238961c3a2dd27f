/** The bounded linear walk of a BIOS slice: it translates words in 4-byte stride until
    a terminator, whose delay slot it emits first, or until the size limit. */
module SliceWalker {
  import opened Mips
  import opened Translator
  import opened SlotRules

  /** A word with what the translator makes of it. */
  datatype Item = Item(i: Instr, tr: Translation)

  /** The readable words of a ROM, translated. */
  type Listing = map<int, Item>

  function ListingOf(rom: Image): Listing { map a | a in rom.words :: Item(rom.words[a], Translate(a, rom.words[a])) }

  datatype Emitted = Emitted(address: int, code: Code)

  datatype Stop = SizeLimit | Terminated(term: Terminator)

  /** `upto` is the address at which scanning stopped. */
  datatype Walk = Threw | Walked(emitted: seq<Emitted>, unsupported: seq<int>, stop: Stop, upto: int)

  function Prepend(e: seq<Emitted>, u: seq<int>, w: Walk): Walk {
    if w.Threw? then Threw else w.(emitted := e + w.emitted, unsupported := u + w.unsupported)
  }

  /** Pieces of code that belong to the word at `a`. */
  function At(a: int, xs: seq<Code>): seq<Emitted> { seq(|xs|, i requires 0 <= i < |xs| => Emitted(a, xs[i])) }

  function TransferCode(pc: int, term: Terminator, slot: Instr): seq<Emitted> {
    At(pc, PreDelay(pc, term)) + [Emitted(pc + 4, Plain(slot, pc + 4)), Emitted(pc, Finish(pc, term))]
  }

  /** One round of the walk: what it appends and where it goes on, or how it ends. */
  datatype Round = More(e: seq<Emitted>, u: seq<int>, next: int) | Halt(w: Walk)

  function Visit(rom: Listing, pc: int): (r: Round)
    ensures r.More? ==> pc < r.next
  {
    if pc !in rom then Halt(Threw)
    else
      match rom[pc].tr
      case Unsupported => More([], [pc], pc + 4)
      case Straight => More([Emitted(pc, Plain(rom[pc].i, pc))], [], pc + 4)
      case Ends(term) =>
        if pc + 4 !in rom then Halt(Threw)
        else if !rom[pc + 4].tr.Straight? then More([], [pc + 4], pc + 8)
        else Halt(Walked(TransferCode(pc, term, rom[pc + 4].i), [], Terminated(term), pc + 8))
  }

  /** What walking from `pc` to the exclusive limit yields. */
  function Slice(rom: Listing, pc: int, limit: int): Walk
    decreases limit - pc
  {
    if pc >= limit then Walked([], [], SizeLimit, pc)
    else match Visit(rom, pc)
      case Halt(w) => w
      case More(e, u, next) => Prepend(e, u, Slice(rom, next, limit))
  }

  /** The walk as the tool reports it. */
  datatype Report = Failed | Report(ok: bool, emitted: seq<Emitted>, unsupported: seq<int>,
                                    start: int, end: int, count: nat, stop: Stop)

  /** The loop that advances `pc` and appends to the two lists. */
  method Scan(rom: Listing, start: int, limit: int) returns (w: Walk)
    ensures w == Slice(rom, start, limit)
  {
    var emitted: seq<Emitted>, unsupported: seq<int>, pc := [], [], start;
    while pc < limit
      invariant Slice(rom, start, limit) == Prepend(emitted, unsupported, Slice(rom, pc, limit))
      decreases limit - pc
    {
      var r := Visit(rom, pc);
      if r.Halt? { return Prepend(emitted, unsupported, r.w); }
      PrependTwice(emitted, unsupported, r.e, r.u, Slice(rom, r.next, limit));
      emitted, unsupported, pc := emitted + r.e, unsupported + r.u, r.next;
    }
    w := Walked(emitted, unsupported, SizeLimit, pc);
  }

  /** The walk as the tool reports it: `ok` exactly when nothing is unsupported. */
  method WalkSlice(rom: Image, start: int, maxBytes: nat) returns (r: Report)
    ensures r.Failed? <==>
              start < rom.load || start >= rom.Hi() || Slice(ListingOf(rom), start, start + maxBytes).Threw?
    ensures r.Report? ==>
              var w := Slice(ListingOf(rom), start, start + maxBytes);
              && r.emitted == w.emitted && r.unsupported == w.unsupported && r.stop == w.stop && r.start == start
              && (r.ok <==> r.unsupported == []) && r.count == |r.emitted|
              && (if w.stop.Terminated? || r.emitted == [] then r.end == w.upto - 4
                  else r.end == r.emitted[|r.emitted| - 1].address)
  {
    if start < rom.load || start >= rom.Hi() { return Failed; }
    var w := Scan(ListingOf(rom), start, start + maxBytes);
    if w.Threw? { return Failed; }
    var end := if w.stop.Terminated? || w.emitted == [] then w.upto - 4 else w.emitted[|w.emitted| - 1].address;
    r := Report(w.unsupported == [], w.emitted, w.unsupported, start, end, |w.emitted|, w.stop);
  }

  lemma PrependTwice(e: seq<Emitted>, u: seq<int>, e': seq<Emitted>, u': seq<int>, w: Walk)
    ensures Prepend(e, u, Prepend(e', u', w)) == Prepend(e + e', u + u', w)
  {
    if !w.Threw? {
      assert e + (e' + w.emitted) == e + e' + w.emitted && u + (u' + w.unsupported) == u + u' + w.unsupported;
    }
  }

  // ---- accounting ----

  /** Code that a terminator emits before its delay slot. */
  predicate Early(x: Code) { x.Snapshot? || x.Cop1Check? }

  /** Word `a` was translated and its code emitted. */
  ghost predicate IsEmitted(w: Walk, a: int)
    requires w.Walked?
  {
    exists i :: 0 <= i < |w.emitted| && w.emitted[i].address == a && !Early(w.emitted[i].code)
  }

  /** Word `a` is emitted, or recorded as unsupported, or is a terminator whose delay slot
      is recorded as unsupported. */
  ghost predicate Recorded(rom: Listing, w: Walk, a: int)
    requires w.Walked?
  {
    IsEmitted(w, a) || a in w.unsupported || (a in rom && rom[a].tr.Ends? && a + 4 in w.unsupported)
  }

  /** The account of a walk that started at `pc`, for word `a`: if it was scanned it is
      recorded, nothing else is, and it is not both emitted and unsupported. */
  ghost predicate Accounted(rom: Listing, w: Walk, pc: int, a: int)
    requires w.Walked?
  {
    && pc <= w.upto
    && (pc <= a < w.upto && (a - pc) % 4 == 0 ==> Recorded(rom, w, a))
    && (IsEmitted(w, a) || a in w.unsupported ==> pc <= a < w.upto)
    && !(IsEmitted(w, a) && a in w.unsupported)
  }

  lemma AccountedMore(rom: Listing, pc: int, tail: Walk, a: int)
    requires Visit(rom, pc).More? && tail.Walked? && Accounted(rom, tail, Visit(rom, pc).next, a)
    ensures Accounted(rom, Prepend(Visit(rom, pc).e, Visit(rom, pc).u, tail), pc, a)
  {
    var r := Visit(rom, pc);
    var w := Prepend(r.e, r.u, tail);
    EmittedAppend(r.e, tail, w, a);
    assert forall x :: x in w.unsupported <==> x in r.u || x in tail.unsupported;
    if a == pc && rom[pc].tr.Ends? { assert pc + 4 in w.unsupported; }
  }

  /** Prepending at most one piece of code. */
  lemma EmittedAppend(e: seq<Emitted>, tail: Walk, w: Walk, a: int)
    requires tail.Walked? && w.Walked? && w.emitted == e + tail.emitted && |e| <= 1
    requires |e| == 1 ==> !Early(e[0].code)
    ensures IsEmitted(w, a) <==> (|e| == 1 && a == e[0].address) || IsEmitted(tail, a)
  {
    if IsEmitted(tail, a) {
      var i :| 0 <= i < |tail.emitted| && tail.emitted[i].address == a && !Early(tail.emitted[i].code);
      assert w.emitted[|e| + i] == tail.emitted[i];
    }
    if |e| == 1 && a == e[0].address { assert w.emitted[0] == e[0]; }
    if IsEmitted(w, a) {
      var i :| 0 <= i < |w.emitted| && w.emitted[i].address == a && !Early(w.emitted[i].code);
      if i >= |e| { assert w.emitted[i] == tail.emitted[i - |e|]; }
    }
  }

  lemma AccountedHalt(rom: Listing, pc: int, a: int)
    requires Visit(rom, pc).Halt? && Visit(rom, pc).w.Walked?
    ensures Accounted(rom, Visit(rom, pc).w, pc, a)
  {
    var w := Visit(rom, pc).w;
    var n := |w.emitted|;
    assert w.emitted[n - 1].address == pc && w.emitted[n - 2].address == pc + 4;
    assert forall i :: 0 <= i < n ==> w.emitted[i].address in {pc, pc + 4};
  }

  /** Every scanned word is accounted for, over the whole walk. */
  lemma {:induction false} EveryWordAccounted(rom: Listing, pc: int, limit: int, a: int)
    requires Slice(rom, pc, limit).Walked?
    ensures Accounted(rom, Slice(rom, pc, limit), pc, a)
    decreases limit - pc
  {
    if pc < limit {
      var r := Visit(rom, pc);
      if r.Halt? {
        AccountedHalt(rom, pc, a);
      } else {
        EveryWordAccounted(rom, r.next, limit, a);
        AccountedMore(rom, pc, Slice(rom, r.next, limit), a);
      }
    }
  }

  // ---- which words are emitted and which are unsupported ----

  predicate EndsAt(rom: Listing, a: int) { a in rom && rom[a].tr.Ends? }

  predicate StraightAt(rom: Listing, a: int) { a in rom && rom[a].tr.Straight? }

  /** The walk from `start` meets word `a` as an instruction, not as a delay slot. */
  predicate Meets(rom: Listing, start: int, a: int)
    decreases a - start
  {
    || a == start
    || (start <= a - 4 && Meets(rom, start, a - 4) && !EndsAt(rom, a - 4))
    || (start <= a - 8 && Meets(rom, start, a - 8) && EndsAt(rom, a - 8))
  }

  /** The walk from `start` meets word `a` as the delay slot of the terminator before it. */
  predicate MeetsAsSlot(rom: Listing, start: int, a: int) {
    start <= a - 4 && Meets(rom, start, a - 4) && EndsAt(rom, a - 4)
  }

  lemma {:induction false} OnGrid(rom: Listing, start: int, a: int)
    requires Meets(rom, start, a)
    ensures start <= a && (a - start) % 4 == 0
    decreases a - start
  {
    if a != start {
      var before := if start <= a - 4 && Meets(rom, start, a - 4) && !EndsAt(rom, a - 4) then a - 4 else a - 8;
      OnGrid(rom, start, before);
      Multiple(before - start);
    }
  }

  lemma Multiple(n: int)
    requires n % 4 == 0
    ensures (n + 4) % 4 == 0 && (n + 8) % 4 == 0
  {}

  /** A word is unsupported if it was met as an instruction that the translator does not know,
      or as a delay slot that is not an ordinary instruction. */
  ghost predicate IsUnsupported(rom: Listing, start: int, a: int) {
    && a in rom
    && ((Meets(rom, start, a) && rom[a].tr.Unsupported?) || (MeetsAsSlot(rom, start, a) && !StraightAt(rom, a)))
  }

  /** A word is emitted if it was met as an ordinary instruction or slot, or as a terminator
      whose slot is ordinary. */
  ghost predicate IsTranslated(rom: Listing, start: int, a: int) {
    || ((Meets(rom, start, a) || MeetsAsSlot(rom, start, a)) && StraightAt(rom, a))
    || (Meets(rom, start, a) && EndsAt(rom, a) && StraightAt(rom, a + 4))
  }

  /** The exact account of the walk's rest from `pc`, for word `a`. */
  ghost predicate Exactly(rom: Listing, start: int, pc: int, w: Walk, a: int)
    requires w.Walked?
  {
    && (a in w.unsupported <==> pc <= a < w.upto && IsUnsupported(rom, start, a))
    && (IsEmitted(w, a) <==> pc <= a < w.upto && IsTranslated(rom, start, a))
  }

  ghost predicate Stands(rom: Listing, start: int, pc: int) {
    Meets(rom, start, pc) && !MeetsAsSlot(rom, start, pc)
  }

  lemma OffGrid(rom: Listing, start: int, pc: int, a: int)
    requires Meets(rom, start, pc) && pc < a && (a - pc) % 4 != 0
    ensures !Meets(rom, start, a) && !MeetsAsSlot(rom, start, a)
  {
    OnGrid(rom, start, pc);
    if Meets(rom, start, a) { OnGrid(rom, start, a); }
    if MeetsAsSlot(rom, start, a) { OnGrid(rom, start, a - 4); }
  }

  lemma ExactMore(rom: Listing, start: int, pc: int, tail: Walk, a: int)
    requires Stands(rom, start, pc) && Visit(rom, pc).More? && tail.Walked? && Visit(rom, pc).next <= tail.upto
    requires Exactly(rom, start, Visit(rom, pc).next, tail, a)
    ensures Exactly(rom, start, pc, Prepend(Visit(rom, pc).e, Visit(rom, pc).u, tail), a)
  {
    var r := Visit(rom, pc);
    var w := Prepend(r.e, r.u, tail);
    OnGrid(rom, start, pc);
    EmittedAppend(r.e, tail, w, a);
    assert forall x :: x in w.unsupported <==> x in r.u || x in tail.unsupported;
    if pc < a < r.next && a != pc + 4 { OffGrid(rom, start, pc, a); }
  }

  lemma ExactHalt(rom: Listing, start: int, pc: int, a: int)
    requires Stands(rom, start, pc) && Visit(rom, pc).Halt? && Visit(rom, pc).w.Walked?
    ensures Exactly(rom, start, pc, Visit(rom, pc).w, a)
  {
    var w := Visit(rom, pc).w;
    var n := |w.emitted|;
    OnGrid(rom, start, pc);
    assert w.emitted[n - 1].address == pc && w.emitted[n - 2].address == pc + 4;
    assert forall i :: 0 <= i < n ==> w.emitted[i].address in {pc, pc + 4};
    if pc < a < pc + 8 && a != pc + 4 { OffGrid(rom, start, pc, a); }
  }

  lemma StandsNext(rom: Listing, start: int, pc: int)
    requires Stands(rom, start, pc) && Visit(rom, pc).More?
    ensures Stands(rom, start, Visit(rom, pc).next)
  {
    OnGrid(rom, start, pc);
  }

  lemma {:induction false} WalkIsExact(rom: Listing, start: int, pc: int, limit: int, a: int)
    requires Stands(rom, start, pc) && Slice(rom, pc, limit).Walked?
    ensures pc <= Slice(rom, pc, limit).upto && Exactly(rom, start, pc, Slice(rom, pc, limit), a)
    decreases limit - pc
  {
    if pc < limit {
      var r := Visit(rom, pc);
      if r.Halt? {
        ExactHalt(rom, start, pc, a);
      } else {
        StandsNext(rom, start, pc);
        WalkIsExact(rom, start, r.next, limit, a);
        ExactMore(rom, start, pc, Slice(rom, r.next, limit), a);
      }
    }
  }

  /** Which words the walk emits and which it records as unsupported, off the listing alone. */
  lemma AccountIff(rom: Listing, start: int, limit: int, a: int)
    requires Slice(rom, start, limit).Walked?
    ensures var w := Slice(rom, start, limit);
            && (a in w.unsupported <==> start <= a < w.upto && IsUnsupported(rom, start, a))
            && (IsEmitted(w, a) <==> start <= a < w.upto && IsTranslated(rom, start, a))
  {
    WalkIsExact(rom, start, start, limit, a);
  }

  // ---- meaning ----

  /** Straight-line MIPS execution from `pc`, up to and including the first terminator
      with its delay slot, or to the limit. */
  function MipsSlice<S>(h: Host<S>, rom: Listing, pc: int, limit: int, c: Cpu<S>): End<S>
    decreases limit - pc
  {
    if pc >= limit then Translator.At(c, pc)
    else if pc !in rom then Outside
    else
      match rom[pc].tr
      case Straight =>
        (match Exec(h, pc, rom[pc].i, c)
         case Trap(c', at) => Trapped(c', at)
         case Next(c') => MipsSlice(h, rom, pc + 4, limit, c'))
      case Ends(term) => if pc + 4 in rom then MipsTransfer(h, pc, term, rom[pc + 4].i, c) else Outside
      case Unsupported => Outside
  }

  function Codes(e: seq<Emitted>): seq<Code> { seq(|e|, i requires 0 <= i < |e| => e[i].code) }

  /** The emitted C function, run from its start; falling off its end continues at `upto`. */
  function RunSlice<S>(h: Host<S>, w: Walk, c: Cpu<S>): End<S>
    requires w.Walked?
  {
    match RunAll(h, Codes(w.emitted), Running(c, map[]))
    case Returned(e) => e
    case Running(c', _) => Translator.At(c', w.upto)
  }

  lemma RunReturned<S>(h: Host<S>, xs: seq<Code>, e: End<S>)
    ensures RunAll(h, xs, Returned(e)) == Returned(e)
    decreases |xs|
  {
    if xs != [] { RunReturned(h, xs[1..], e); }
  }

  lemma CodesOfTransfer(pc: int, term: Terminator, slot: Instr)
    ensures Codes(TransferCode(pc, term, slot)) == EmitTransfer(pc, term, slot)
  {}

  /** The state in which execution from `c` meets the terminator, if it gets there. */
  function Arrives<S>(h: Host<S>, rom: Listing, pc: int, limit: int, c: Cpu<S>): Option<Cpu<S>>
    decreases limit - pc
  {
    if pc >= limit || pc !in rom then None
    else
      match rom[pc].tr
      case Straight =>
        (match Exec(h, pc, rom[pc].i, c) case Trap(_, _) => None case Next(c') => Arrives(h, rom, pc + 4, limit, c'))
      case Ends(_) => Some(c)
      case Unsupported => None
  }

  /** The walk accepted the slice, and it ends at the size limit or in a terminator that
      has a reference meaning. */
  ghost predicate Accepted(w: Walk) {
    w.Walked? && w.unsupported == [] && (w.stop.Terminated? ==> Modelled(w.stop.term))
  }

  /** Where the terminator is reached, it is the one the walk stopped at; and the slice does
      what the MIPS code does exactly if that terminator is right in that state. */
  ghost predicate MeansIff<S>(h: Host<S>, rom: Listing, pc: int, limit: int, c: Cpu<S>)
    requires Slice(rom, pc, limit).Walked?
  {
    var w, at := Slice(rom, pc, limit), Arrives(h, rom, pc, limit, c);
    && (at.Some? ==> w.stop.Terminated? && Modelled(w.stop.term) && w.upto - 4 in rom)
    && (RunSlice(h, w, c) == MipsSlice(h, rom, pc, limit, c)
        <==> (at.Some? ==> TransferRight(h, w.upto - 8, w.stop.term, rom[w.upto - 4].i, at.value)))
  }

  /** A whole accepted slice does what the MIPS code does from state `c` (same registers,
      same rest of the machine, same next PC, same traps) if and only if its terminator is
      right in the state that execution reaches it in, or is never reached. */
  lemma {:induction false} SliceMeaningIff<S>(h: Host<S>, rom: Listing, pc: int, limit: int, c: Cpu<S>)
    requires Accepted(Slice(rom, pc, limit))
    ensures MeansIff(h, rom, pc, limit, c)
    decreases limit - pc
  {
    if pc < limit {
      match rom[pc].tr {
        case Straight =>
          var r := Exec(h, pc, rom[pc].i, c);
          if r.Next? { SliceMeaningIff(h, rom, pc + 4, limit, r.cpu); }
          StraightMeaning(h, rom, pc, limit, c);
        case Ends(term) => EndMeaning(h, rom, pc, limit, c, term);
        case Unsupported =>
      }
    }
  }

  lemma StraightMeaning<S>(h: Host<S>, rom: Listing, pc: int, limit: int, c: Cpu<S>)
    requires Accepted(Slice(rom, pc, limit)) && pc < limit && pc in rom && rom[pc].tr.Straight?
    requires Exec(h, pc, rom[pc].i, c).Next? ==> MeansIff(h, rom, pc + 4, limit, Exec(h, pc, rom[pc].i, c).cpu)
    ensures MeansIff(h, rom, pc, limit, c)
  {
    var w, tail, r := Slice(rom, pc, limit), Slice(rom, pc + 4, limit), Exec(h, pc, rom[pc].i, c);
    assert Codes(w.emitted)[0] == Plain(rom[pc].i, pc) && Codes(w.emitted)[1..] == Codes(tail.emitted);
    if r.Trap? { RunReturned(h, Codes(tail.emitted), Trapped(r.cpu, r.at)); }
  }

  lemma EndMeaning<S>(h: Host<S>, rom: Listing, pc: int, limit: int, c: Cpu<S>, term: Terminator)
    requires Accepted(Slice(rom, pc, limit)) && pc < limit && pc in rom && rom[pc].tr == Ends(term)
    ensures MeansIff(h, rom, pc, limit, c)
  {
    if rom[pc + 4].tr.Straight? {
      CodesOfTransfer(pc, term, rom[pc + 4].i);
      TransferRightIff(h, pc, term, rom[pc + 4].i, c);
      FinishReturns(h, pc, term, rom[pc + 4].i, c);
    }
  }

  /** The emitted transfer always leaves the C function. */
  lemma FinishReturns<S>(h: Host<S>, pc: int, term: Terminator, slot: Instr, c: Cpu<S>)
    requires Modelled(term)
    ensures RunAll(h, EmitTransfer(pc, term, slot), Running(c, map[])).Returned?
  {
    RunTransfer(h, pc, term, slot, c, map[]);
  }

  /** A slice whose end is safe by its words has the meaning of the MIPS code from every
      state, on every host that respects what instructions read. */
  lemma SliceMeaning<S(!new)>(h: Host<S>, rom: Listing, pc: int, limit: int, c: Cpu<S>)
    requires Respects(h) && Accepted(Slice(rom, pc, limit))
    requires var w := Slice(rom, pc, limit);
      w.stop.Terminated? ==> w.upto - 4 in rom && SafeWords(w.stop.term, rom[w.upto - 4].i)
    ensures RunSlice(h, Slice(rom, pc, limit), c) == MipsSlice(h, rom, pc, limit, c)
  {
    var w, at := Slice(rom, pc, limit), Arrives(h, rom, pc, limit, c);
    SliceMeaningIff(h, rom, pc, limit, c);
    if at.Some? {
      SafeWordsAreRight(h, w.upto - 8, w.stop.term, rom[w.upto - 4].i, at.value);
      TransferRightIff(h, w.upto - 8, w.stop.term, rom[w.upto - 4].i, at.value);
    }
  }
}
