/** The strict translator's contract and what its output means.

    Emitted C is represented by `Code`. What a single ordinary instruction computes
    (its value, its effect on the rest of the machine, whether it traps) is a
    parameter `Host`, shared by the emitted code and the reference machine: the
    subject here is the order in which registers are read and written around a
    delay slot, for every such instruction semantics. */
module Translator {
  import opened Mips

  // ---- what the translator makes of a word ----

  datatype Cond = Eq | Ne | Lez | Gtz | Ltz | Gez {
    predicate UsesRt() { Eq? || Ne? }

    predicate Holds(a: Word, b: Word) {
      match this
      case Eq => a == b
      case Ne => a != b
      case Lez => a == 0 || a >= 0x8000_0000
      case Gtz => a != 0 && a < 0x8000_0000
      case Ltz => a >= 0x8000_0000
      case Gez => a < 0x8000_0000
    }
  }

  datatype Terminator =
    | Cond(cond: Cond, rs: Reg, rt: Reg, target: int)
    | J(target: int) | Jal(target: int) | Jr(rs: Reg) | Jalr(rd: Reg, rs: Reg)
    | Rfe | Cop1Branch(target: int) | ReservedInstruction

  datatype Translation = Unsupported | Straight | Ends(term: Terminator)

  function Translate(pc: int, i: Instr): Translation {
    if i.IsNop() then Straight
    else if i.op == 0x00 then
      if i.fn == 0x08 then Ends(Jr(i.rs))
      else if i.fn == 0x09 then Ends(Jalr(i.rd, i.rs))
      else if i.fn in {0x00, 0x02, 0x03, 0x04, 0x06, 0x07, 0x0C, 0x0D, 0x10, 0x11, 0x12, 0x13, 0x19, 0x1A, 0x1B,
                       0x20, 0x21, 0x22, 0x23, 0x24, 0x25, 0x26, 0x27, 0x2A, 0x2B} then Straight
      else Ends(ReservedInstruction)
    else if i.op == 0x01 then
      if i.rt == 0 then Ends(Cond(Ltz, i.rs, 0, BranchTarget(pc, i)))
      else if i.rt == 1 then Ends(Cond(Gez, i.rs, 0, BranchTarget(pc, i)))
      else Unsupported
    else if i.op == 0x02 then Ends(J(JumpTarget(pc, i)))
    else if i.op == 0x03 then Ends(Jal(JumpTarget(pc, i)))
    else if i.op == 0x04 then Ends(Cond(Eq, i.rs, i.rt, BranchTarget(pc, i)))
    else if i.op == 0x05 then Ends(Cond(Ne, i.rs, i.rt, BranchTarget(pc, i)))
    else if i.op == 0x06 then Ends(Cond(Lez, i.rs, 0, BranchTarget(pc, i)))
    else if i.op == 0x07 then Ends(Cond(Gtz, i.rs, 0, BranchTarget(pc, i)))
    else if i.op in {0x08, 0x09, 0x0A, 0x0B, 0x0C, 0x0D, 0x0E, 0x0F, 0x20, 0x21, 0x22, 0x23, 0x24, 0x25, 0x26,
                     0x28, 0x29, 0x2A, 0x2B, 0x2E, 0x31, 0x39, 0x32, 0x3A} then Straight
    else if i.op == 0x11 then (if i.rs in {0x08, 0x0C} then Ends(Cop1Branch(BranchTarget(pc, i))) else Straight)
    else if i.op == 0x10 then
      if i.raw == 0x4200_0010 then Ends(Rfe) else if i.rs in {0x00, 0x04} then Straight else Unsupported
    else if i.op == 0x12 then (if i.rs in {0x00, 0x02, 0x04, 0x06} || i.rs >= 0x10 then Straight else Unsupported)
    else Unsupported
  }

  // ---- the machine ----

  /** The register file and everything else (HI/LO, coprocessors, memory, devices). */
  datatype Cpu<S> = Cpu(gpr: Regs, rest: S) {
    function With(r: Reg, v: Word): Cpu<S> { Cpu(SetReg(gpr, r, v), rest) }
  }

  /** The general register that an ordinary instruction writes. */
  function Dest(i: Instr): Option<Reg> {
    if i.op == 0x00 then
      if i.fn in {0x00, 0x02, 0x03, 0x04, 0x06, 0x07, 0x10, 0x12,
                  0x20, 0x21, 0x22, 0x23, 0x24, 0x25, 0x26, 0x27, 0x2A, 0x2B} then Some(i.rd) else None
    else if i.op in {0x08, 0x09, 0x0A, 0x0B, 0x0C, 0x0D, 0x0E, 0x0F,
                    0x20, 0x21, 0x22, 0x23, 0x24, 0x25, 0x26} then Some(i.rt)
    else if i.op == 0x10 && i.rs == 0 then Some(i.rt)
    else if i.op == 0x12 && i.rs in {0x00, 0x02} then Some(i.rt)
    else None
  }

  /** A system call: when it falls through, the handler may have changed any register. */
  predicate Calls(i: Instr) { i.op == 0x00 && i.fn == 0x0C }

  /** Whether an ordinary instruction can change general register `r`. */
  predicate MayWrite(i: Instr, r: Reg) { r != 0 && (Dest(i) == Some(r) || Calls(i)) }

  /** Whether an ordinary instruction can depend on the value of general register `r`;
      system calls and breakpoints hand the whole register file to the runtime. */
  predicate Reads(i: Instr, r: Reg) {
    if i.IsNop() then false
    else if i.op == 0x00 then
      if i.fn in {0x00, 0x02, 0x03} then r == i.rt
      else if i.fn in {0x10, 0x12} then false
      else if i.fn in {0x11, 0x13} then r == i.rs
      else if i.fn in {0x0C, 0x0D} then true
      else r == i.rs || r == i.rt
    else if i.op == 0x0F then false
    else if i.op in {0x22, 0x26, 0x28, 0x29, 0x2A, 0x2B, 0x2E} then r == i.rs || r == i.rt
    else if i.op in {0x10, 0x12} then i.rs in {0x04, 0x06} && r == i.rt
    else if i.op == 0x11 then false
    else r == i.rs
  }

  /** The ordinary instructions whose emitted code can leave the slice: overflow checks,
      alignment checks, the absent COP1, system calls and breakpoints. */
  predicate MayTrap(i: Instr) {
    || (i.op == 0x00 && i.fn in {0x0C, 0x0D, 0x20})
    || i.op in {0x08, 0x11, 0x21, 0x23, 0x25, 0x29, 0x2B, 0x31, 0x39}
  }

  /** What ordinary instructions compute: the value that is written, the registers that a
      system call leaves, the rest of the machine, and whether the slice is left. */
  datatype Host<!S> = Host(value: (Instr, Cpu<S>) -> Word, call: (Instr, Cpu<S>) -> Regs,
                           rest: (Instr, Cpu<S>) -> S, traps: (Instr, Cpu<S>) -> bool)

  /** The general registers after an ordinary instruction. */
  function After<S>(h: Host<S>, i: Instr, c: Cpu<S>): Regs {
    if Calls(i) then h.call(i, c)[0 := c.gpr[0]]
    else if Dest(i).Some? then SetReg(c.gpr, Dest(i).value, h.value(i, c))
    else c.gpr
  }

  lemma AfterAt<S>(h: Host<S>, i: Instr, c: Cpu<S>, r: Reg)
    ensures !MayWrite(i, r) ==> After(h, i, c)[r] == c.gpr[r]
    ensures MayWrite(i, r) && !Calls(i) ==> After(h, i, c)[r] == h.value(i, c)
  {}

  ghost predicate Agree<S>(i: Instr, c: Cpu<S>, d: Cpu<S>) {
    c.rest == d.rest && forall r: Reg :: Reads(i, r) ==> c.gpr[r] == d.gpr[r]
  }

  /** The host computes every instruction from what the instruction reads, and only
      instructions that can trap do. */
  ghost predicate Respects<S(!new)>(h: Host<S>) {
    && (forall i, c, d :: Agree(i, c, d) ==> SameEffect(h, i, c, d))
    && (forall i, c :: h.traps(i, c) ==> MayTrap(i))
  }

  ghost predicate SameEffect<S>(h: Host<S>, i: Instr, c: Cpu<S>, d: Cpu<S>) {
    && h.value(i, c) == h.value(i, d) && h.call(i, c) == h.call(i, d) && h.rest(i, c) == h.rest(i, d)
    && (h.traps(i, c) <==> h.traps(i, d))
  }

  datatype Result<S> = Next(cpu: Cpu<S>) | Trap(cpu: Cpu<S>, at: int)

  function Exec<S>(h: Host<S>, pc: int, i: Instr, c: Cpu<S>): Result<S> {
    if h.traps(i, c) then Trap(c, pc) else Next(Cpu(After(h, i, c), h.rest(i, c)))
  }

  // ---- the reference: MIPS I around a delay slot ----

  /** Where a slice ends up: at an address, or trapped in an instruction. */
  datatype End<S> = At(cpu: Cpu<S>, pc: int) | Trapped(cpu: Cpu<S>, at: int) | Outside

  function Then<S>(r: Result<S>, pc: int): End<S> { if r.Trap? then Trapped(r.cpu, r.at) else At(r.cpu, pc) }

  /** The transfer reads its operands and links; then the delay slot runs; then control moves. */
  function MipsTransfer<S>(h: Host<S>, pc: int, term: Terminator, slot: Instr, c: Cpu<S>): End<S> {
    match term
    case Cond(k, rs, rt, target) =>
      Then(Exec(h, pc + 4, slot, c), if k.Holds(c.gpr[rs], c.gpr[rt]) then target else pc + 8)
    case J(target) => Then(Exec(h, pc + 4, slot, c), target)
    case Jal(target) => Then(Exec(h, pc + 4, slot, c.With(31, Wrap(pc + 8))), target)
    case Jr(rs) => Then(Exec(h, pc + 4, slot, c), c.gpr[rs])
    case Jalr(rd, rs) => Then(Exec(h, pc + 4, slot, c.With(rd, Wrap(pc + 8))), c.gpr[rs])
    case _ => Outside
  }

  // ---- emitted code ----

  datatype Code =
    | Plain(i: Instr, pc: int)
    | Snapshot(pc: int, rs: Reg, rt: Reg)
    | Cop1Check(pc: int)
    | Finish(pc: int, term: Terminator)
    | NaiveFinish(pc: int, term: Terminator)

  /** A running C function: the machine, and the snapshot locals of each branch. */
  datatype CState<S> = Running(cpu: Cpu<S>, locals: map<int, (Word, Word)>) | Returned(end: End<S>)

  function RunCode<S>(h: Host<S>, x: Code, s: CState<S>): CState<S> {
    match s
    case Returned(_) => s
    case Running(c, locals) =>
      match x
      case Plain(i, pc) =>
        (match Exec(h, pc, i, c) case Next(c') => Running(c', locals) case Trap(c', at) => Returned(Trapped(c', at)))
      case Snapshot(pc, rs, rt) => Running(c, locals[pc := (c.gpr[rs], c.gpr[rt])])
      case Cop1Check(_) => Returned(Outside)
      case Finish(pc, Cond(k, _, _, target)) =>
        if pc in locals then Returned(At(c, if k.Holds(locals[pc].0, locals[pc].1) then target else pc + 8))
        else Returned(Outside)
      case Finish(_, J(target)) => Returned(At(c, target))
      case Finish(pc, Jal(target)) => Returned(At(c.With(31, Wrap(pc + 8)), target))
      case Finish(_, Jr(rs)) => Returned(At(c, c.gpr[rs]))
      case Finish(pc, Jalr(rd, rs)) =>
        var c' := c.With(rd, Wrap(pc + 8));
        Returned(At(c', c'.gpr[rs]))
      case Finish(_, _) => Returned(Outside)
      // what a translator without snapshots would emit: the operands are read after the slot
      case NaiveFinish(pc, Cond(k, rs, rt, target)) =>
        Returned(At(c, if k.Holds(c.gpr[rs], c.gpr[rt]) then target else pc + 8))
      case NaiveFinish(_, _) => Returned(Outside)
  }

  function RunAll<S>(h: Host<S>, xs: seq<Code>, s: CState<S>): CState<S>
    decreases |xs|
  {
    if xs == [] then s else RunAll(h, xs[1..], RunCode(h, xs[0], s))
  }

  /** Snapshot, delay slot, terminator, in the order in which the walker emits them. */
  function EmitTransfer(pc: int, term: Terminator, slot: Instr): seq<Code> {
    PreDelay(pc, term) + [Plain(slot, pc + 4), Finish(pc, term)]
  }

  /** What a terminator emits before its delay slot: the operand snapshot of a conditional
      branch, the usability check of a COP1 branch, or nothing. */
  function PreDelay(pc: int, term: Terminator): seq<Code> {
    if term.Cond? then [Snapshot(pc, term.rs, term.rt)] else if term.Cop1Branch? then [Cop1Check(pc)] else []
  }

  lemma RunTwo<S>(h: Host<S>, a: Code, b: Code, s: CState<S>)
    ensures RunAll(h, [a, b], s) == RunCode(h, b, RunCode(h, a, s))
  {
    assert [a, b][1..] == [b] && [b][1..] == [];
    assert RunAll(h, [b], RunCode(h, a, s)) == RunCode(h, b, RunCode(h, a, s));
  }

  lemma RunTransfer<S>(h: Host<S>, pc: int, term: Terminator, slot: Instr, c: Cpu<S>, l: map<int, (Word, Word)>)
    requires !term.Cop1Branch?
    ensures RunAll(h, EmitTransfer(pc, term, slot), Running(c, l))
         == RunCode(h, Finish(pc, term),
                    RunCode(h, Plain(slot, pc + 4),
                            if term.Cond? then RunCode(h, Snapshot(pc, term.rs, term.rt), Running(c, l))
                            else Running(c, l)))
  {
    var two := [Plain(slot, pc + 4), Finish(pc, term)];
    var s := if term.Cond? then RunCode(h, Snapshot(pc, term.rs, term.rt), Running(c, l)) else Running(c, l);
    RunTwo(h, two[0], two[1], s);
    if term.Cond? {
      assert EmitTransfer(pc, term, slot)[1..] == two;
    } else {
      assert EmitTransfer(pc, term, slot) == two;
    }
  }

  // ---- what is preserved, and when ----

  /** All six conditional branches and `j`: for every machine state and every delay slot. */
  lemma BranchPreserved<S>(h: Host<S>, pc: int, term: Terminator, slot: Instr, c: Cpu<S>, l: map<int, (Word, Word)>)
    requires term.Cond? || term.J?
    ensures RunAll(h, EmitTransfer(pc, term, slot), Running(c, l)) == Returned(MipsTransfer(h, pc, term, slot, c))
  {
    RunTransfer(h, pc, term, slot, c, l);
  }

  /** The emitted order gives what MIPS I gives, in state `c`. */
  ghost predicate Right<S>(h: Host<S>, pc: int, term: Terminator, slot: Instr, c: Cpu<S>) {
    RunAll(h, EmitTransfer(pc, term, slot), Running(c, map[])) == Returned(MipsTransfer(h, pc, term, slot, c))
  }

  /** `jr` has no snapshot: it is right exactly when the slot traps or leaves the jump
      register's value alone. */
  lemma JrRightIff<S>(h: Host<S>, pc: int, rs: Reg, slot: Instr, c: Cpu<S>)
    ensures Right(h, pc, Jr(rs), slot, c) <==> h.traps(slot, c) || After(h, slot, c)[rs] == c.gpr[rs]
  {
    RunTransfer(h, pc, Jr(rs), slot, c, map[]);
  }

  /** Linking before the slot, as MIPS I does, and after it, as the emitted code does,
      come to the same: both trap with the link already in place, or neither traps, the
      rest of the machine and the other registers agree, and the slot leaves the link. */
  ghost predicate LinkRight<S>(h: Host<S>, slot: Instr, rd: Reg, ret: Word, c: Cpu<S>) {
    var m := c.With(rd, ret);
    if h.traps(slot, c) then h.traps(slot, m) && (rd == 0 || c.gpr[rd] == ret)
    else
      && !h.traps(slot, m) && h.rest(slot, c) == h.rest(slot, m)
      && (rd == 0 || After(h, slot, m)[rd] == ret)
      && forall r: Reg :: r != rd ==> After(h, slot, c)[r] == After(h, slot, m)[r]
  }

  lemma SameRegs(g: Regs, g': Regs)
    requires forall r: Reg :: g[r] == g'[r]
    ensures g == g'
  {}

  /** Setting a register of `g` gives `g'` exactly when the other registers agree. */
  lemma SetRegIs(g: Regs, rd: Reg, ret: Word, g': Regs)
    requires g[0] == g'[0]
    ensures SetReg(g, rd, ret) == g' <==> (rd == 0 || g'[rd] == ret) && forall r: Reg :: r != rd ==> g[r] == g'[r]
  {
    if (rd == 0 || g'[rd] == ret) && forall r: Reg :: r != rd ==> g[r] == g'[r] { SameRegs(SetReg(g, rd, ret), g'); }
  }

  lemma LinkSame(g: Regs, rd: Reg, ret: Word)
    ensures SetReg(g, rd, ret) == g <==> rd == 0 || g[rd] == ret
  {
    if rd != 0 && g[rd] == ret { assert g[rd := ret] == g; }
    if rd != 0 { assert SetReg(g, rd, ret)[rd] == ret; }
  }

  /** `jal`, for every slot and every state. */
  lemma JalRightIff<S>(h: Host<S>, pc: int, target: int, slot: Instr, c: Cpu<S>)
    ensures Right(h, pc, Jal(target), slot, c) <==> LinkRight(h, slot, 31, Wrap(pc + 8), c)
  {
    RunTransfer(h, pc, Jal(target), slot, c, map[]);
    var ret := Wrap(pc + 8);
    LinkSame(c.gpr, 31, ret);
    SetRegIs(After(h, slot, c), 31, ret, After(h, slot, c.With(31, ret)));
  }

  /** `jalr`, for every slot and every state: the link is right and, unless the slot traps,
      neither the slot nor the link itself leaves another value in the jump register. */
  ghost predicate JalrRight<S>(h: Host<S>, slot: Instr, rd: Reg, rs: Reg, ret: Word, c: Cpu<S>) {
    && LinkRight(h, slot, rd, ret, c)
    && (h.traps(slot, c)
        || (if rd == rs && rd != 0 then c.gpr[rs] == ret else After(h, slot, c)[rs] == c.gpr[rs]))
  }

  lemma JalrRightIff<S>(h: Host<S>, pc: int, rd: Reg, rs: Reg, slot: Instr, c: Cpu<S>)
    ensures Right(h, pc, Jalr(rd, rs), slot, c) <==> JalrRight(h, slot, rd, rs, Wrap(pc + 8), c)
  {
    RunTransfer(h, pc, Jalr(rd, rs), slot, c, map[]);
    var ret := Wrap(pc + 8);
    LinkSame(c.gpr, rd, ret);
    SetRegIs(After(h, slot, c), rd, ret, After(h, slot, c.With(rd, ret)));
  }

  /** `jalr r, r` jumps to its own return address instead of the register's value. */
  lemma JalrSameRegister<S>(h: Host<S>, pc: int, r: Reg, slot: Instr, c: Cpu<S>, l: map<int, (Word, Word)>)
    requires r != 0 && !h.traps(slot, c)
    ensures var s := RunAll(h, EmitTransfer(pc, Jalr(r, r), slot), Running(c, l));
            s.Returned? && s.end.At? && s.end.pc == Wrap(pc + 8)
  {
    RunTransfer(h, pc, Jalr(r, r), slot, c, l);
  }

  predicate Modelled(term: Terminator) { term.Cond? || term.J? || term.Jr? || term.Jal? || term.Jalr? }

  /** What decides state by state whether the emitted order is right. */
  ghost predicate TransferRight<S>(h: Host<S>, pc: int, term: Terminator, slot: Instr, c: Cpu<S>)
    requires Modelled(term)
  {
    match term
    case Jr(rs) => h.traps(slot, c) || After(h, slot, c)[rs] == c.gpr[rs]
    case Jal(_) => LinkRight(h, slot, 31, Wrap(pc + 8), c)
    case Jalr(rd, rs) => JalrRight(h, slot, rd, rs, Wrap(pc + 8), c)
    case _ => true
  }

  lemma TransferRightIff<S>(h: Host<S>, pc: int, term: Terminator, slot: Instr, c: Cpu<S>)
    requires Modelled(term)
    ensures Right(h, pc, term, slot, c) <==> TransferRight(h, pc, term, slot, c)
  {
    match term {
      case Jr(rs) => JrRightIff(h, pc, rs, slot, c);
      case Jal(target) => JalRightIff(h, pc, target, slot, c);
      case Jalr(rd, rs) => JalrRightIff(h, pc, rd, rs, slot, c);
      case _ => BranchPreserved(h, pc, term, slot, c, map[]);
    }
  }
}
