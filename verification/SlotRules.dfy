/** Which pairs of terminator and delay slot are translated rightly in every state, read off
    the two words. */
module SlotRules {
  import opened Mips
  import opened Translator

  /** The slot has nothing to do with the link register and cannot trap. */
  predicate LinkFree(slot: Instr, rd: Reg) { rd == 0 || (!Reads(slot, rd) && !MayWrite(slot, rd) && !MayTrap(slot)) }

  /** A terminator and a slot whose words alone show that the emitted order is right. */
  predicate SafeWords(term: Terminator, slot: Instr) {
    match term
    case Cond(_, _, _, _) => true
    case J(_) => true
    case Jr(rs) => !MayWrite(slot, rs)
    case Jal(_) => LinkFree(slot, 31)
    case Jalr(rd, rs) => LinkFree(slot, rd) && !MayWrite(slot, rs) && (rd == 0 || rd != rs)
    case _ => false
  }

  lemma LinkFreeIsRight<S(!new)>(h: Host<S>, slot: Instr, rd: Reg, ret: Word, c: Cpu<S>)
    requires Respects(h) && LinkFree(slot, rd)
    ensures LinkRight(h, slot, rd, ret, c)
  {
    var m := c.With(rd, ret);
    if rd != 0 {
      assert Agree(slot, c, m);
      assert SameEffect(h, slot, c, m);
      forall r: Reg | r != rd ensures After(h, slot, c)[r] == After(h, slot, m)[r] {}
    }
  }

  /** Safe words are right on every respecting host, from every state. */
  lemma SafeWordsAreRight<S(!new)>(h: Host<S>, pc: int, term: Terminator, slot: Instr, c: Cpu<S>)
    requires Respects(h) && SafeWords(term, slot)
    ensures Right(h, pc, term, slot, c)
  {
    if term.Jal? { LinkFreeIsRight(h, slot, 31, Wrap(pc + 8), c); }
    if term.Jalr? { LinkFreeIsRight(h, slot, term.rd, Wrap(pc + 8), c); }
    if term.Jr? || term.Jalr? { AfterAt(h, slot, c, term.rs); }
    TransferRightIff(h, pc, term, slot, c);
  }

  /** A respecting host that brings out whatever a slot does with register `r`. */
  function Telling(r: Reg, v: Word, trap: bool): Host<Word> {
    Host((i, c) => v, (i, c) => seq(32, _ => v),
         (i, c: Cpu<Word>) => if Reads(i, r) then c.gpr[r] else 0, (i, c) => trap && MayTrap(i))
  }

  lemma TellingRespects(r: Reg, v: Word, trap: bool)
    ensures Respects(Telling(r, v, trap))
  {
    var h := Telling(r, v, trap);
    forall i, c: Cpu<Word>, d: Cpu<Word> | Agree(i, c, d) ensures SameEffect(h, i, c, d) {}
  }

  /** Registers that are zero except for `r`, where they do not hold the return address. */
  function Unlinked(r: Reg, ret: Word): Cpu<Word> {
    Cpu(SetReg(seq(32, i => 0), r, Other(ret)), 0)
  }

  function Other(w: Word): Word { if w == 0 then 1 else 0 }

  lemma LinkGoesWrong(slot: Instr, rd: Reg, ret: Word) returns (h: Host<Word>)
    requires !LinkFree(slot, rd)
    ensures Respects(h) && !LinkRight(h, slot, rd, ret, Unlinked(rd, ret))
  {
    var c := Unlinked(rd, ret);
    var trap := MayTrap(slot);
    h := Telling(rd, Other(ret), trap);
    TellingRespects(rd, Other(ret), trap);
    assert c.gpr[rd] == Other(ret) && c.With(rd, ret).gpr[rd] == ret;
  }

  /** Words that are not safe go wrong on some respecting host in some state. */
  lemma UnsafeWordsGoWrong(pc: int, term: Terminator, slot: Instr) returns (h: Host<Word>, c: Cpu<Word>)
    requires Modelled(term) && !SafeWords(term, slot)
    ensures Respects(h) && !Right(h, pc, term, slot, c)
  {
    var ret := Wrap(pc + 8);
    var rd := if term.Jal? then 31 else if term.Jalr? then term.rd else 0;
    c := Unlinked(rd, ret);
    if !LinkFree(slot, rd) {
      h := LinkGoesWrong(slot, rd, ret);
    } else {
      h := Telling(rd, 1, false);
      TellingRespects(rd, 1, false);
      assert forall r: Reg :: r != rd ==> c.gpr[r] == 0;
    }
    TransferRightIff(h, pc, term, slot, c);
  }

  /** Which words a caller may pass: the emitted order is right on every respecting host
      and in every state if and only if the words are safe. */
  lemma SafeWordsIff(pc: int, term: Terminator, slot: Instr)
    requires Modelled(term)
    ensures SafeWords(term, slot) <==> forall h: Host<Word>, c :: Respects(h) ==> Right(h, pc, term, slot, c)
  {
    if SafeWords(term, slot) {
      forall h: Host<Word>, c | Respects(h)
        ensures Right(h, pc, term, slot, c)
      {
        SafeWordsAreRight(h, pc, term, slot, c);
      }
    } else {
      var h, c := UnsafeWordsGoWrong(pc, term, slot);
    }
  }

  /** For example, a store of `$ra` in the slot of a `jal` writes the old return address. */
  lemma JalSlotReadsRa(pc: int, target: int, slot: Instr)
    requires slot.op == 0x2B && slot.rt == 31
    ensures Translate(pc + 4, slot).Straight? && !SafeWords(Jal(target), slot)
  {
    assert !slot.IsNop() && Reads(slot, 31);
  }
}
