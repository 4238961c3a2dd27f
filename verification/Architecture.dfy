/** What the instruction set says about branches, jumps and calls, and that the code emitted
    for their words does it. */
module Architecture {
  import opened Mips
  import A = Assembler
  import T = Translator
  import W = SliceWalker

  /** A register as a signed number. */
  function Signed(v: Word): int { if v < 0x8000_0000 then v else v - 0x1_0000_0000 }

  /** When the branch is taken, by the signed values of its registers. */
  predicate Taken(a: A.Asm, g: Regs)
    requires A.IsBranch(a)
  {
    match a
    case Beq(rs, rt, _) => g[rs] == g[rt]
    case Bne(rs, rt, _) => g[rs] != g[rt]
    case Blez(rs, _) => Signed(g[rs]) <= 0
    case Bgtz(rs, _) => Signed(g[rs]) > 0
    case Bltz(rs, _) => Signed(g[rs]) < 0
    case Bgez(rs, _) => Signed(g[rs]) >= 0
  }

  /** The words at `pc` and behind it are a transfer and an ordinary delay slot. */
  predicate StartsWith(rom: Image, pc: int, w: Word, slot: Instr) {
    && pc in rom.words && rom.words[pc] == Decode(w)
    && pc + 4 in rom.words && rom.words[pc + 4] == slot && T.Translate(pc + 4, slot).Straight?
  }

  /** The emitted slice of a transfer is its emitted code, and it returns. */
  lemma TransferSlice<S>(h: T.Host<S>, rom: Image, pc: int, limit: int, w: Word, slot: Instr, term: T.Terminator,
                         c: T.Cpu<S>)
    requires StartsWith(rom, pc, w, slot) && pc < limit
    requires T.Translate(pc, Decode(w)) == T.Ends(term) && T.Modelled(term)
    ensures var s := W.Slice(W.ListingOf(rom), pc, limit);
            && s.Walked? && s.unsupported == []
            && T.RunAll(h, T.EmitTransfer(pc, term, slot), T.Running(c, map[])) == T.Returned(W.RunSlice(h, s, c))
  {
    W.CodesOfTransfer(pc, term, slot);
    W.FinishReturns(h, pc, term, slot, c);
    T.RunTransfer(h, pc, term, slot, c, map[]);
  }

  /** A slice that starts with a branch word, from every state: the delay slot executes, and
      control goes to the branch's destination exactly if the branch is taken by the
      registers before the slot, else behind the slot. */
  lemma BranchSlice<S>(h: T.Host<S>, rom: Image, pc: int, limit: int, a: A.Asm, slot: Instr, c: T.Cpu<S>)
    requires A.IsBranch(a) && StartsWith(rom, pc, A.Encode(a), slot) && pc < limit
    ensures var s := W.Slice(W.ListingOf(rom), pc, limit);
            && s.Walked? && s.unsupported == []
            && W.RunSlice(h, s, c)
               == (match T.Exec(h, pc + 4, slot, c)
                   case Trap(c', at) => T.Trapped(c', at)
                   case Next(c') => T.At(c', if Taken(a, c.gpr) then pc + 4 + a.disp * 4 else pc + 8))
  {
    A.BranchRoundTrip(pc, a);
    var term := T.Cond(A.Tested(a).0, A.Tested(a).1, A.Tested(a).2, A.BranchDest(pc, a));
    TransferSlice(h, rom, pc, limit, A.Encode(a), slot, term, c);
    T.RunTransfer(h, pc, term, slot, c, map[]);
  }

  /** The same for `j` and `jal` to an aligned address of their segment; `jal` links after
      the slot. */
  lemma JumpSlice<S>(h: T.Host<S>, rom: Image, pc: int, limit: int, t: int, link: bool, slot: Instr, c: T.Cpu<S>)
    requires 0 <= pc + 4 < 0x1_0000_0000 && t % 4 == 0 && t / 0x1000_0000 == (pc + 4) / 0x1000_0000 && pc < limit
    requires StartsWith(rom, pc, A.Encode(if link then A.Jal(A.IndexOf(t)) else A.J(A.IndexOf(t))), slot)
    ensures var s := W.Slice(W.ListingOf(rom), pc, limit);
            && s.Walked? && s.unsupported == []
            && W.RunSlice(h, s, c)
               == (match T.Exec(h, pc + 4, slot, c)
                   case Trap(c', at) => T.Trapped(c', at)
                   case Next(c') => T.At(if link then c'.With(31, Wrap(pc + 8)) else c', t))
  {
    A.JumpRoundTrip(pc, t);
    var term := if link then T.Jal(t) else T.J(t);
    var w := A.Encode(if link then A.Jal(A.IndexOf(t)) else A.J(A.IndexOf(t)));
    TransferSlice(h, rom, pc, limit, w, slot, term, c);
    T.RunTransfer(h, pc, term, slot, c, map[]);
  }

  /** The same for `jr`: control goes to what the register holds after the slot. */
  lemma JrSlice<S>(h: T.Host<S>, rom: Image, pc: int, limit: int, rs: Reg, slot: Instr, c: T.Cpu<S>)
    requires StartsWith(rom, pc, A.Encode(A.Jr(rs)), slot) && pc < limit
    ensures var s := W.Slice(W.ListingOf(rom), pc, limit);
            && s.Walked? && s.unsupported == []
            && W.RunSlice(h, s, c)
               == (match T.Exec(h, pc + 4, slot, c)
                   case Trap(c', at) => T.Trapped(c', at)
                   case Next(c') => T.At(c', c'.gpr[rs]))
  {
    A.RegisterRoundTrip(pc, 0, rs);
    TransferSlice(h, rom, pc, limit, A.Encode(A.Jr(rs)), slot, T.Jr(rs), c);
    T.RunTransfer(h, pc, T.Jr(rs), slot, c, map[]);
  }

  /** The same for `jalr`: after the slot it links its destination register, and control goes
      to what the source register then holds. */
  lemma JalrSlice<S>(h: T.Host<S>, rom: Image, pc: int, limit: int, rd: Reg, rs: Reg, slot: Instr, c: T.Cpu<S>)
    requires StartsWith(rom, pc, A.Encode(A.Jalr(rd, rs)), slot) && pc < limit
    ensures var s := W.Slice(W.ListingOf(rom), pc, limit);
            && s.Walked? && s.unsupported == []
            && W.RunSlice(h, s, c)
               == (match T.Exec(h, pc + 4, slot, c)
                   case Trap(c', at) => T.Trapped(c', at)
                   case Next(c') => T.At(c'.With(rd, Wrap(pc + 8)), c'.With(rd, Wrap(pc + 8)).gpr[rs]))
  {
    A.RegisterRoundTrip(pc, rd, rs);
    TransferSlice(h, rom, pc, limit, A.Encode(A.Jalr(rd, rs)), slot, T.Jalr(rd, rs), c);
    T.RunTransfer(h, pc, T.Jalr(rd, rs), slot, c, map[]);
  }

  /** An ordinary word is emitted and executed where it stands, and the slice goes on. */
  lemma OrdinarySlice<S>(h: T.Host<S>, rom: Image, pc: int, limit: int, a: A.Asm, c: T.Cpu<S>)
    requires A.IsOrdinary(a) && pc in rom.words && rom.words[pc] == Decode(A.Encode(a)) && pc < limit
    requires W.Slice(W.ListingOf(rom), pc + 4, limit).Walked?
    ensures var s, rest := W.Slice(W.ListingOf(rom), pc, limit), W.Slice(W.ListingOf(rom), pc + 4, limit);
            && s.Walked? && s.unsupported == rest.unsupported
            && W.RunSlice(h, s, c)
               == (match T.Exec(h, pc, Decode(A.Encode(a)), c)
                   case Trap(c', at) => T.Trapped(c', at)
                   case Next(c') => W.RunSlice(h, rest, c'))
  {
    A.OrdinaryRoundTrip(pc, a);
    var s, rest := W.Slice(W.ListingOf(rom), pc, limit), W.Slice(W.ListingOf(rom), pc + 4, limit);
    var i, r := Decode(A.Encode(a)), T.Exec(h, pc, Decode(A.Encode(a)), c);
    assert W.Codes(s.emitted)[0] == T.Plain(i, pc) && W.Codes(s.emitted)[1..] == W.Codes(rest.emitted);
    if r.Trap? { W.RunReturned(h, W.Codes(rest.emitted), T.Trapped(r.cpu, r.at)); }
  }

  /** What an ordinary word changes: the register its mnemonic names, and that only; a system
      call may change any. */
  lemma OrdinaryWrites<S>(h: T.Host<S>, pc: int, a: A.Asm, c: T.Cpu<S>, r: Reg)
    requires A.IsOrdinary(a) && !a.Syscall? && !h.traps(Decode(A.Encode(a)), c)
    ensures var i := Decode(A.Encode(a));
            && T.Exec(h, pc, i, c).Next? && T.Exec(h, pc, i, c).cpu.rest == h.rest(i, c)
            && T.Exec(h, pc, i, c).cpu.gpr[r] == if A.Written(a) == Some(r) && r != 0 then h.value(i, c) else c.gpr[r]
  {
    A.OrdinaryRoundTrip(pc, a);
    T.AfterAt(h, Decode(A.Encode(a)), c, r);
  }
}
