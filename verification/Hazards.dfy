/** The branch-delay hazard scanner: which branches would go wrong if their operands were
    read after the delay slot, and which of these it misses. */
module Hazards {
  import opened Mips
  import opened Translator
  import A = Assembler

  /** The pair that the hazard scanner flags. */
  predicate Flagged(term: Terminator, slot: Instr)
    requires term.Cond? && Writes(slot).Some?
  {
    || (term.rs in Writes(slot).value && term.rs != 0)
    || (term.cond.UsesRt() && term.rt in Writes(slot).value && term.rt != 0)
  }

  /** The two kinds of instruction of whose register writes the scanner knows nothing:
      moves from COP2, and system calls, whose handler may write any register. */
  predicate FromCop2(i: Instr) { i.op == 0x12 && i.rs in {0x00, 0x02} }

  predicate Unseen(i: Instr, r: Reg) { r != 0 && ((FromCop2(i) && i.rt == r) || Calls(i)) }

  /** For ordinary instructions the scanner's write set contains every register that the
      instruction can change, except for those two kinds. */
  lemma WritesCoverDest(pc: int, i: Instr, r: Reg)
    requires Translate(pc, i).Straight?
    ensures Writes(i).Some? && (MayWrite(i, r) ==> r in Writes(i).value || Unseen(i, r))
  {}

  /** Reading the operands after the slot gives the same as the snapshot, in state `c`. */
  ghost predicate NaiveAgrees<S>(h: Host<S>, pc: int, term: Terminator, slot: Instr, c: Cpu<S>) {
    RunAll(h, [Plain(slot, pc + 4), NaiveFinish(pc, term)], Running(c, map[]))
    == RunAll(h, EmitTransfer(pc, term, slot), Running(c, map[]))
  }

  /** The branch does not go to the word behind its slot anyway, nor compare a register
      with itself. */
  predicate Matters(pc: int, term: Terminator)
    requires term.Cond?
  {
    term.target != pc + 8 && !(term.cond.UsesRt() && term.rs == term.rt)
  }

  /** The slot changes, unseen, an operand of a branch whose outcome matters. */
  predicate Escapes(pc: int, term: Terminator, slot: Instr)
    requires term.Cond?
  {
    (Unseen(slot, term.rs) || (term.cond.UsesRt() && Unseen(slot, term.rt))) && Matters(pc, term)
  }

  lemma UnflaggedIsSafe<S>(h: Host<S>, pc: int, term: Terminator, slot: Instr, c: Cpu<S>)
    requires term.Cond? && (term.cond.UsesRt() || term.rt == 0)
    requires Translate(pc + 4, slot).Straight? && Writes(slot).Some? && !Flagged(term, slot) && !Escapes(pc, term, slot)
    ensures NaiveAgrees(h, pc, term, slot, c)
  {
    WritesCoverDest(pc + 4, slot, term.rs);
    WritesCoverDest(pc + 4, slot, term.rt);
    AfterAt(h, slot, c, term.rs);
    AfterAt(h, slot, c, term.rt);
    RunTwo(h, Plain(slot, pc + 4), NaiveFinish(pc, term), Running(c, map[]));
    RunTransfer(h, pc, term, slot, c, map[]);
  }

  /** A slot that can change an operand of a branch whose outcome matters does, for some
      host and state, make the naive order go wrong. */
  lemma GoesWrong(pc: int, term: Terminator, slot: Instr, r: Reg) returns (h: Host<int>, c: Cpu<int>)
    requires term.Cond? && (term.cond.UsesRt() || term.rt == 0) && Matters(pc, term)
    requires MayWrite(slot, r) && (r == term.rs || (term.cond.UsesRt() && r == term.rt))
    ensures !NaiveAgrees(h, pc, term, slot, c)
  {
    var v: Word := if term.cond.Ltz? || term.cond.Gez? then 0x8000_0000 else 1;
    var after := OneSet(r, v);
    h := Host((i, c) => v, (i, c) => after, (i, c) => 0, (i, c) => false);
    c := Cpu(seq(32, i => 0), 0);
    RunTwo(h, Plain(slot, pc + 4), NaiveFinish(pc, term), Running(c, map[]));
    RunTransfer(h, pc, term, slot, c, map[]);
    NaiveFlips(term, r, v);
    SameRegs(After(h, slot, c), after);
  }

  /** Such a pair escapes the scanner: it reports no write, yet the naive order goes wrong. */
  lemma UnseenEscapesScanner(pc: int, term: Terminator, slot: Instr) returns (h: Host<int>, c: Cpu<int>)
    requires term.Cond? && (term.cond.UsesRt() || term.rt == 0) && Escapes(pc, term, slot)
    ensures Translate(pc + 4, slot).Straight? && Writes(slot).Some? && !Flagged(term, slot)
    ensures !NaiveAgrees(h, pc, term, slot, c)
  {
    h, c := GoesWrong(pc, term, slot, if Unseen(slot, term.rs) then term.rs else term.rt);
  }

  /** Registers that are zero except for `r`. */
  function OneSet(r: Reg, v: Word): Regs { seq(32, i => if i == r then v else 0) }

  /** The written operand turns the branch round. */
  lemma NaiveFlips(term: Terminator, r: Reg, v: Word)
    requires term.Cond? && r != 0 && (term.cond.UsesRt() || term.rt == 0)
    requires (r == term.rs || (term.cond.UsesRt() && r == term.rt)) && !(term.cond.UsesRt() && term.rs == term.rt)
    requires v == if term.cond.Ltz? || term.cond.Gez? then 0x8000_0000 else 1
    ensures term.cond.Holds(OneSet(r, v)[term.rs], OneSet(r, v)[term.rt]) != term.cond.Holds(0, 0)
  {}

  /** For every unflagged pair of supported words: the snapshot is unnecessary in all
      states if and only if the pair does not escape the scanner. */
  lemma UnflaggedSafeIff(pc: int, term: Terminator, slot: Instr)
    requires term.Cond? && (term.cond.UsesRt() || term.rt == 0)
    requires Translate(pc + 4, slot).Straight? && Writes(slot).Some? && !Flagged(term, slot)
    ensures !Escapes(pc, term, slot) <==> forall h: Host<int>, c :: NaiveAgrees(h, pc, term, slot, c)
  {
    if Escapes(pc, term, slot) {
      var h, c := UnseenEscapesScanner(pc, term, slot);
    } else {
      forall h: Host<int>, c ensures NaiveAgrees(h, pc, term, slot, c) { UnflaggedIsSafe(h, pc, term, slot, c); }
    }
  }

  /** For every pair of supported words, flagged or not: some host and state make the naive
      order go wrong if and only if the pair is flagged or escapes, and its outcome matters. */
  lemma GoesWrongIff(pc: int, term: Terminator, slot: Instr)
    requires term.Cond? && (term.cond.UsesRt() || term.rt == 0)
    requires Translate(pc + 4, slot).Straight? && Writes(slot).Some?
    ensures (Flagged(term, slot) || Escapes(pc, term, slot)) && Matters(pc, term)
       <==> exists h: Host<int>, c :: !NaiveAgrees(h, pc, term, slot, c)
  {
    if !Matters(pc, term) {
      forall h: Host<int>, c ensures NaiveAgrees(h, pc, term, slot, c) { IdleBranch(h, pc, term, slot, c); }
    } else if Flagged(term, slot) {
      var r := if term.rs in Writes(slot).value && term.rs != 0 then term.rs else term.rt;
      var h, c := GoesWrong(pc, term, slot, r);
    } else {
      UnflaggedSafeIff(pc, term, slot);
    }
  }

  lemma IdleBranch<S>(h: Host<S>, pc: int, term: Terminator, slot: Instr, c: Cpu<S>)
    requires term.Cond? && !Matters(pc, term)
    ensures NaiveAgrees(h, pc, term, slot, c)
  {
    RunTwo(h, Plain(slot, pc + 4), NaiveFinish(pc, term), Running(c, map[]));
    RunTransfer(h, pc, term, slot, c, map[]);
  }

  /** The branch compares `r`. */
  predicate Compares(branch: A.Asm, r: Reg)
    requires A.IsBranch(branch)
  {
    r == branch.rs || ((branch.Beq? || branch.Bne?) && r == branch.rt)
  }

  lemma FlaggedBy(branch: A.Asm, slot: A.Asm, target: int, i: Instr)
    requires A.IsBranch(branch) && A.ScannerKnows(slot, i)
    ensures Flagged(Cond(A.Tested(branch).0, A.Tested(branch).1, A.Tested(branch).2, target), i)
       <==> exists r: Reg :: r != 0 && A.Written(slot) == Some(r) && !slot.Mfc2? && Compares(branch, r)
  {}

  /** Which pairs of mnemonics are flagged: the slot writes a register other than zero that
      the branch compares, moves from COP2 aside. */
  lemma FlaggedPairs(pc: int, branch: A.Asm, slot: A.Asm)
    requires A.IsBranch(branch) && A.IsOrdinary(slot)
    ensures Writes(Decode(A.Encode(slot))).Some?
    ensures (match Translate(pc, Decode(A.Encode(branch)))
             case Ends(Cond(k, rs, rt, d)) =>
               Flagged(Cond(k, rs, rt, d), Decode(A.Encode(slot)))
               <==> (exists r: Reg :: r != 0 && A.Written(slot) == Some(r) && !slot.Mfc2? && Compares(branch, r))
             case _ => false)
  {
    A.BranchRoundTrip(pc, branch);
    A.OrdinaryRoundTrip(pc, slot);
    FlaggedBy(branch, slot, A.BranchDest(pc, branch), Decode(A.Encode(slot)));
  }
}
