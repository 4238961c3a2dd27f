/** Assembly mnemonics and their encoding, as the reference for what every tool makes of an
    instruction word. */
module Assembler {
  import opened Mips
  import T = Translator
  import B = BasicBlocks
  import N = InventoryWalker

  // ---- instructions ----

  /** A branch displacement in words, relative to the delay slot. */
  type Disp = d: int | -0x8000 <= d < 0x8000

  datatype Alu = Sllv | Srlv | Srav | Add | Addu | Sub | Subu | And | Or | Xor | Nor | Slt | Sltu
  datatype Shift = Sll | Srl | Sra
  datatype MulDiv = Multu | Div | Divu
  datatype AluImm = Addi | Addiu | Slti | Sltiu | Andi | Ori | Xori | Lui
  datatype Load = Lb | Lh | Lwl | Lw | Lbu | Lhu | Lwr
  datatype Store = Sb | Sh | Swl | Sw | Swr

  datatype Asm =
    | Beq(rs: Reg, rt: Reg, disp: Disp) | Bne(rs: Reg, rt: Reg, disp: Disp)
    | Blez(rs: Reg, disp: Disp) | Bgtz(rs: Reg, disp: Disp) | Bltz(rs: Reg, disp: Disp) | Bgez(rs: Reg, disp: Disp)
    | J(index: Index26) | Jal(index: Index26) | Jr(rs: Reg) | Jalr(rd: Reg, rs: Reg)
    | Compute(alu: Alu, rd: Reg, rs: Reg, rt: Reg) | Shifted(shift: Shift, rd: Reg, rt: Reg, shamt: Reg)
    | Multiply(md: MulDiv, rs: Reg, rt: Reg) | Mfhi(rd: Reg) | Mflo(rd: Reg) | Mthi(rs: Reg) | Mtlo(rs: Reg)
    | Immediate(imm: AluImm, rt: Reg, rs: Reg, value: Half)
    | Loads(load: Load, rt: Reg, offset: Half, base: Reg) | Stores(store: Store, rt: Reg, offset: Half, base: Reg)
    | Mfc0(rt: Reg, rd: Reg) | Mtc0(rt: Reg, rd: Reg) | Mfc2(rt: Reg, rd: Reg) | Mtc2(rt: Reg, rd: Reg)
    | Syscall | Break

  // ---- encoding ----

  function RWord(rs: Reg, rt: Reg, rd: Reg, shamt: Reg, fn: int): Word
    requires 0 <= fn < 64
  {
    rs * 0x20_0000 + rt * 0x1_0000 + rd * 0x800 + shamt * 0x40 + fn
  }

  function IWord(op: int, rs: Reg, rt: Reg, imm: Half): Word
    requires 0 <= op < 64
  {
    op * 0x400_0000 + rs * 0x20_0000 + rt * 0x1_0000 + imm
  }

  function JWord(op: int, index: Index26): Word
    requires 0 <= op < 64
  {
    op * 0x400_0000 + index
  }

  /** Two's complement in sixteen bits. */
  function Low16(d: Disp): Half { if d < 0 then d + 0x1_0000 else d }

  function AluCode(a: Alu): (fn: int)
    ensures 0 <= fn < 64
  {
    match a
    case Sllv => 0x04 case Srlv => 0x06 case Srav => 0x07
    case Add => 0x20 case Addu => 0x21 case Sub => 0x22 case Subu => 0x23
    case And => 0x24 case Or => 0x25 case Xor => 0x26 case Nor => 0x27 case Slt => 0x2A case Sltu => 0x2B
  }

  function ShiftCode(s: Shift): (fn: int)
    ensures 0 <= fn < 64
  {
    match s case Sll => 0x00 case Srl => 0x02 case Sra => 0x03
  }

  function MulDivCode(m: MulDiv): (fn: int)
    ensures 0 <= fn < 64
  {
    match m case Multu => 0x19 case Div => 0x1A case Divu => 0x1B
  }

  function ImmCode(i: AluImm): (op: int)
    ensures 0 <= op < 64
  {
    match i
    case Addi => 0x08 case Addiu => 0x09 case Slti => 0x0A case Sltiu => 0x0B
    case Andi => 0x0C case Ori => 0x0D case Xori => 0x0E case Lui => 0x0F
  }

  function LoadCode(l: Load): (op: int)
    ensures 0 <= op < 64
  {
    match l
    case Lb => 0x20 case Lh => 0x21 case Lwl => 0x22 case Lw => 0x23 case Lbu => 0x24 case Lhu => 0x25 case Lwr => 0x26
  }

  function StoreCode(s: Store): (op: int)
    ensures 0 <= op < 64
  {
    match s case Sb => 0x28 case Sh => 0x29 case Swl => 0x2A case Sw => 0x2B case Swr => 0x2E
  }

  function Encode(a: Asm): Word {
    match a
    case Beq(rs, rt, d) => IWord(4, rs, rt, Low16(d))
    case Bne(rs, rt, d) => IWord(5, rs, rt, Low16(d))
    case Blez(rs, d) => IWord(6, rs, 0, Low16(d))
    case Bgtz(rs, d) => IWord(7, rs, 0, Low16(d))
    case Bltz(rs, d) => IWord(1, rs, 0, Low16(d))
    case Bgez(rs, d) => IWord(1, rs, 1, Low16(d))
    case J(t) => JWord(2, t)
    case Jal(t) => JWord(3, t)
    case Jr(rs) => RWord(rs, 0, 0, 0, 0x08)
    case Jalr(rd, rs) => RWord(rs, 0, rd, 0, 0x09)
    case Compute(f, rd, rs, rt) => RWord(rs, rt, rd, 0, AluCode(f))
    case Shifted(f, rd, rt, n) => RWord(0, rt, rd, n, ShiftCode(f))
    case Multiply(f, rs, rt) => RWord(rs, rt, 0, 0, MulDivCode(f))
    case Mfhi(rd) => RWord(0, 0, rd, 0, 0x10)
    case Mthi(rs) => RWord(rs, 0, 0, 0, 0x11)
    case Mflo(rd) => RWord(0, 0, rd, 0, 0x12)
    case Mtlo(rs) => RWord(rs, 0, 0, 0, 0x13)
    case Immediate(f, rt, rs, v) => IWord(ImmCode(f), rs, rt, v)
    case Loads(f, rt, o, b) => IWord(LoadCode(f), b, rt, o)
    case Stores(f, rt, o, b) => IWord(StoreCode(f), b, rt, o)
    case Mfc0(rt, rd) => IWord(0x10, 0, rt, rd * 0x800)
    case Mtc0(rt, rd) => IWord(0x10, 4, rt, rd * 0x800)
    case Mfc2(rt, rd) => IWord(0x12, 0, rt, rd * 0x800)
    case Mtc2(rt, rd) => IWord(0x12, 4, rt, rd * 0x800)
    case Syscall => RWord(0, 0, 0, 0, 0x0C)
    case Break => RWord(0, 0, 0, 0, 0x0D)
  }

  // ---- the fields come back ----

  lemma Join32(h: int, low: int)
    requires 0 <= low < 32
    ensures (h * 32 + low) / 32 == h && (h * 32 + low) % 32 == low
  {}

  lemma Join64(h: int, low: int)
    requires 0 <= low < 64
    ensures (h * 64 + low) / 64 == h && (h * 64 + low) % 64 == low
  {}

  lemma JoinHalf(h: int, low: int)
    requires 0 <= low < 0x1_0000
    ensures (h * 0x1_0000 + low) / 0x1_0000 == h && (h * 0x1_0000 + low) % 0x1_0000 == low
  {}

  lemma UpperShifts(w: int)
    ensures w / 0x20_0000 == w / 0x1_0000 / 32 && w / 0x400_0000 == w / 0x1_0000 / 32 / 32
  {}

  lemma LowerShifts(h: int, low: Half)
    ensures (h * 0x1_0000 + low) / 0x800 == h * 32 + low / 0x800
    ensures (h * 0x1_0000 + low) / 0x40 == h * 0x400 + low / 0x40
    ensures (h * 0x1_0000 + low) % 64 == low % 64
  {}

  lemma LowFields(rd: Reg, shamt: Reg, fn: int)
    requires 0 <= fn < 64
    ensures var low := rd * 0x800 + shamt * 0x40 + fn;
            low < 0x1_0000 && low / 0x40 == rd * 32 + shamt && low % 64 == fn && low / 0x800 == rd
  {
    Join64(rd * 32 + shamt, fn);
    var low := rd * 0x800 + shamt * 0x40 + fn;
    assert low / 0x800 == low / 64 / 32;
    Join32(rd, shamt);
  }

  /** The upper fields of a word whose lower half is `low`. */
  lemma Upper(op: int, rs: Reg, rt: Reg, low: Half)
    requires 0 <= op < 64
    ensures var w := op * 0x400_0000 + rs * 0x20_0000 + rt * 0x1_0000 + low;
            w == (op * 0x400 + rs * 0x20 + rt) * 0x1_0000 + low
            && w / 0x400_0000 == op && w / 0x20_0000 % 32 == rs && w / 0x1_0000 % 32 == rt && w % 0x1_0000 == low
  {
    var h := (op * 32 + rs) * 32 + rt;
    var w := h * 0x1_0000 + low;
    JoinHalf(h, low);
    UpperShifts(w);
    Join32(op * 32 + rs, rt);
    Join32(op, rs);
  }

  lemma DecodeI(op: int, rs: Reg, rt: Reg, imm: Half)
    requires 0 <= op < 64
    ensures var i := Decode(IWord(op, rs, rt, imm));
            i.op == op && i.rs == rs && i.rt == rt && i.uimm == imm && i.raw == IWord(op, rs, rt, imm)
  {
    Upper(op, rs, rt, imm);
  }

  lemma MultipleOf32(h: int, x: int)
    ensures (h * 0x400 + x) % 32 == x % 32
  {}

  lemma LowInWord(h: int, low: Half)
    ensures var w := h * 0x1_0000 + low;
            w / 0x800 % 32 == low / 0x800 && w / 0x40 % 32 == low / 0x40 % 32 && w % 64 == low % 64
  {
    var w, top, mid := h * 0x1_0000 + low, low / 0x800, low / 0x40;
    LowerShifts(h, low);
    assert w / 0x800 == h * 32 + top && w / 0x40 == h * 0x400 + mid;
    assert 0 <= top < 32;
    Join32(h, top);
    MultipleOf32(h, mid);
  }

  lemma DecodeR(rs: Reg, rt: Reg, rd: Reg, shamt: Reg, fn: int)
    requires 0 <= fn < 64
    ensures var i := Decode(RWord(rs, rt, rd, shamt, fn));
            i.op == 0 && i.rs == rs && i.rt == rt && i.rd == rd && i.shamt == shamt && i.fn == fn
  {
    var low := rd * 0x800 + shamt * 0x40 + fn;
    LowFields(rd, shamt, fn);
    Upper(0, rs, rt, low);
    LowInWord(rs * 0x20 + rt, low);
    Join32(rd, shamt);
  }

  lemma DecodeJ(op: int, index: Index26)
    requires 0 <= op < 64
    ensures var i := Decode(JWord(op, index)); i.op == op && i.target26 == index
  {}

  /** A decoded word is determined by its fields. */
  lemma FieldsCompose(w: Word)
    ensures var i := Decode(w);
            i.raw == w && 0 <= i.op < 64 && w == i.op * 0x400_0000 + i.rs * 0x20_0000 + i.rt * 0x1_0000 + i.uimm
            && w == i.op * 0x400_0000 + i.target26
  {
    var h := w / 0x1_0000;
    UpperShifts(w);
    assert h == h / 32 * 32 + h % 32 && h / 32 == h / 32 / 32 * 32 + h / 32 % 32;
    assert w == h * 0x1_0000 + w % 0x1_0000;
  }

  lemma LowCompose(w: Word)
    ensures var i := Decode(w); i.uimm == i.rd * 0x800 + i.shamt * 0x40 + i.fn && 0 <= i.fn < 64
  {
    var h, low := w / 0x1_0000, w % 0x1_0000;
    assert w == h * 0x1_0000 + low;
    LowInWord(h, low);
    assert low / 0x800 == low / 64 / 32;
    assert low == low / 64 * 64 + low % 64 && low / 64 == low / 64 / 32 * 32 + low / 64 % 32;
  }

  // ---- branches, jumps and calls ----

  predicate IsBranch(a: Asm) { a.Beq? || a.Bne? || a.Blez? || a.Bgtz? || a.Bltz? || a.Bgez? }

  /** Where a branch at `pc` goes: a number of words from its delay slot. */
  function BranchDest(pc: int, a: Asm): int
    requires IsBranch(a)
  {
    pc + 4 + a.disp * 4
  }

  /** The condition that the emitted code tests, on which registers. */
  function Tested(a: Asm): (T.Cond, Reg, Reg)
    requires IsBranch(a)
  {
    match a
    case Beq(rs, rt, _) => (T.Eq, rs, rt) case Bne(rs, rt, _) => (T.Ne, rs, rt)
    case Blez(rs, _) => (T.Lez, rs, 0) case Bgtz(rs, _) => (T.Gtz, rs, 0)
    case Bltz(rs, _) => (T.Ltz, rs, 0) case Bgez(rs, _) => (T.Gez, rs, 0)
  }

  /** Every branch word, for every displacement: all the tools see its kind and destination,
      and the translator its condition and operands. */
  lemma BranchRoundTrip(pc: int, a: Asm)
    requires IsBranch(a)
    ensures var i, d := Decode(Encode(a)), BranchDest(pc, a);
            Classify(pc, i) == Branch(d) && N.KindOf(pc, i) == N.CondBranch(d) && B.KindOf(pc, i) == B.Branch(d)
            && T.Translate(pc, i) == T.Ends(T.Cond(Tested(a).0, Tested(a).1, Tested(a).2, d))
  {
    match a {
      case Beq(rs, rt, d) => DecodeI(4, rs, rt, Low16(d));
      case Bne(rs, rt, d) => DecodeI(5, rs, rt, Low16(d));
      case Blez(rs, d) => DecodeI(6, rs, 0, Low16(d));
      case Bgtz(rs, d) => DecodeI(7, rs, 0, Low16(d));
      case Bltz(rs, d) => DecodeI(1, rs, 0, Low16(d));
      case Bgez(rs, d) => DecodeI(1, rs, 1, Low16(d));
    }
    assert Decode(Encode(a)).Simm() == a.disp;
  }

  /** The other branch words: branch-likely, linking and coprocessor branches, as far as each
      tool knows them. */
  lemma OtherBranches(pc: int, op: int, rs: Reg, rt: Reg, d: Disp)
    requires 0 <= op < 64
    ensures var i, t := Decode(IWord(op, rs, rt, Low16(d))), pc + 4 + d * 4;
            && (op in {0x14, 0x15, 0x16, 0x17} ==> Classify(pc, i) == Branch(t))
            && (op == 0x01 && rt in {0x10, 0x11} ==>
                  Classify(pc, i) == Branch(t) && N.KindOf(pc, i) == N.CondBranch(t) && B.KindOf(pc, i) == B.Branch(t))
            && (op == 0x11 && rs in {0x08, 0x0C} ==>
                  B.KindOf(pc, i) == B.Branch(t) && T.Translate(pc, i) == T.Ends(T.Cop1Branch(t)))
            && (op in {0x11, 0x12} && rs == 0x08 ==> N.KindOf(pc, i) == N.CondBranch(t))
  {
    DecodeI(op, rs, rt, Low16(d));
    assert Decode(IWord(op, rs, rt, Low16(d))).Simm() == d;
  }

  /** The index field for a word-aligned target. */
  function IndexOf(t: int): Index26 { t / 4 % 0x400_0000 }

  /** A jump or call to any aligned address of the segment of its delay slot goes there. */
  lemma JumpRoundTrip(pc: int, t: int)
    requires 0 <= pc + 4 < 0x1_0000_0000 && t % 4 == 0 && t / 0x1000_0000 == (pc + 4) / 0x1000_0000
    ensures var j, c := Decode(Encode(J(IndexOf(t)))), Decode(Encode(Jal(IndexOf(t))));
            Classify(pc, j) == Jump(t) && N.KindOf(pc, j) == N.Goto(t) && B.KindOf(pc, j) == B.Jump(t)
            && T.Translate(pc, j) == T.Ends(T.J(t))
            && Classify(pc, c) == Call(t) && N.KindOf(pc, c) == N.Calls && B.KindOf(pc, c) == B.Call(t)
            && T.Translate(pc, c) == T.Ends(T.Jal(t))
  {
    DecodeJ(2, IndexOf(t));
    DecodeJ(3, IndexOf(t));
    SegmentTarget(pc, t, Decode(Encode(J(IndexOf(t)))));
    SegmentTarget(pc, t, Decode(Encode(Jal(IndexOf(t)))));
  }

  lemma SegmentTarget(pc: int, t: int, i: Instr)
    requires 0 <= pc + 4 < 0x1_0000_0000 && t % 4 == 0 && t / 0x1000_0000 == (pc + 4) / 0x1000_0000
    requires i.target26 == IndexOf(t)
    ensures JumpTarget(pc, i) == t
  {
    var seg := t / 0x1000_0000;
    assert 0 <= seg < 16;
    assert t == seg * 0x1000_0000 + t % 0x1000_0000;
    assert t / 4 == seg * 0x400_0000 + t % 0x1000_0000 / 4;
  }

  /** Jumps and calls through a register. */
  lemma RegisterRoundTrip(pc: int, rd: Reg, rs: Reg)
    ensures var j, c := Decode(Encode(Jr(rs))), Decode(Encode(Jalr(rd, rs)));
            Classify(pc, j) == (if rs == 31 then Return else JumpReg(rs)) && N.KindOf(pc, j) == N.Indirect
            && B.KindOf(pc, j) == (if rs == 31 then B.Return else B.JumpReg) && T.Translate(pc, j) == T.Ends(T.Jr(rs))
            && Classify(pc, c) == CallReg && N.KindOf(pc, c) == N.Calls && B.KindOf(pc, c) == B.CallReg
            && T.Translate(pc, c) == T.Ends(T.Jalr(rd, rs))
  {
    DecodeR(rs, 0, 0, 0, 0x08);
    DecodeR(rs, 0, rd, 0, 0x09);
  }

  // ---- ordinary instructions ----

  predicate IsOrdinary(a: Asm) {
    a.Compute? || a.Shifted? || a.Multiply? || a.Mfhi? || a.Mflo? || a.Mthi? || a.Mtlo? || a.Immediate?
    || a.Loads? || a.Stores? || a.Mfc0? || a.Mtc0? || a.Mfc2? || a.Mtc2? || a.Syscall? || a.Break?
  }

  /** The general register that an ordinary instruction writes. */
  function Written(a: Asm): Option<Reg> {
    match a
    case Compute(_, rd, _, _) => Some(rd) case Shifted(_, rd, _, _) => Some(rd)
    case Mfhi(rd) => Some(rd) case Mflo(rd) => Some(rd)
    case Immediate(_, rt, _, _) => Some(rt) case Loads(_, rt, _, _) => Some(rt)
    case Mfc0(rt, _) => Some(rt) case Mfc2(rt, _) => Some(rt)
    case _ => None
  }

  /** The general registers that it uses. */
  predicate Uses(a: Asm, r: Reg) {
    match a
    case Compute(_, _, rs, rt) => r == rs || r == rt
    case Shifted(_, _, rt, _) => r == rt
    case Multiply(_, rs, rt) => r == rs || r == rt
    case Mthi(rs) => r == rs case Mtlo(rs) => r == rs
    case Immediate(f, _, rs, _) => !f.Lui? && r == rs
    case Loads(f, rt, _, b) => r == b || (r == rt && (f.Lwl? || f.Lwr?))
    case Stores(_, rt, _, b) => r == b || r == rt
    case Mtc0(rt, _) => r == rt case Mtc2(rt, _) => r == rt
    case Syscall => true case Break => true
    case _ => false
  }

  /** Overflow, misaligned access, system calls and breakpoints. */
  predicate CanTrap(a: Asm) {
    match a
    case Compute(f, _, _, _) => f.Add?
    case Immediate(f, _, _, _) => f.Addi?
    case Loads(f, _, _, _) => f.Lh? || f.Lw? || f.Lhu?
    case Stores(f, _, _, _) => f.Sh? || f.Sw?
    case _ => a.Syscall? || a.Break?
  }

  /** All the tools let the word fall through. */
  predicate FallsThrough(pc: int, i: Instr) {
    && Classify(pc, i) == Normal && !IsControlFlow(i) && IsValid(i)
    && N.KindOf(pc, i) == N.Inline && B.KindOf(pc, i) == B.Plain && T.Translate(pc, i) == T.Straight
  }

  /** They know what it writes, whether it can trap, what it uses, and what the hazard
      scanner reports for it. */
  ghost predicate RegistersKnown(a: Asm, i: Instr) { WritesKnown(a, i) && UsesKnown(a, i) && ScannerKnows(a, i) }

  ghost predicate WritesKnown(a: Asm, i: Instr) {
    T.Dest(i) == Written(a) && (T.Calls(i) <==> a.Syscall?) && (T.MayTrap(i) <==> CanTrap(a))
  }

  ghost predicate UsesKnown(a: Asm, i: Instr) { forall r: Reg :: r != 0 ==> (T.Reads(i, r) <==> Uses(a, r)) }

  ghost predicate ScannerKnows(a: Asm, i: Instr) {
    Writes(i).Some? && forall r: Reg :: r != 0 ==> (r in Writes(i).value <==> Written(a) == Some(r) && !a.Mfc2?)
  }

  predicate IsSpecial(a: Asm) {
    a.Compute? || a.Shifted? || a.Multiply? || a.Mfhi? || a.Mflo? || a.Mthi? || a.Mtlo? || a.Syscall? || a.Break?
  }

  /** The fields of a register-format instruction: rs, rt, rd, shamt, fn. */
  function SpecialFields(a: Asm): (f: (Reg, Reg, Reg, Reg, int))
    requires IsSpecial(a)
    ensures 0 <= f.4 < 64
  {
    match a
    case Compute(f, rd, rs, rt) => (rs, rt, rd, 0, AluCode(f))
    case Shifted(f, rd, rt, n) => (0, rt, rd, n, ShiftCode(f))
    case Multiply(f, rs, rt) => (rs, rt, 0, 0, MulDivCode(f))
    case Mfhi(rd) => (0, 0, rd, 0, 0x10)
    case Mflo(rd) => (0, 0, rd, 0, 0x12)
    case Mthi(rs) => (rs, 0, 0, 0, 0x11)
    case Mtlo(rs) => (rs, 0, 0, 0, 0x13)
    case Syscall => (0, 0, 0, 0, 0x0C)
    case Break => (0, 0, 0, 0, 0x0D)
  }

  predicate IsShort(a: Asm) { a.Immediate? || a.Loads? || a.Stores? || a.Mfc0? || a.Mtc0? || a.Mfc2? || a.Mtc2? }

  /** The fields of an immediate-format instruction: op, rs, rt, immediate. */
  function ShortFields(a: Asm): (f: (int, Reg, Reg, Half))
    requires IsShort(a)
    ensures 0 <= f.0 < 0x3F
  {
    match a
    case Immediate(f, rt, rs, v) => (ImmCode(f), rs, rt, v)
    case Loads(f, rt, o, b) => (LoadCode(f), b, rt, o)
    case Stores(f, rt, o, b) => (StoreCode(f), b, rt, o)
    case Mfc0(rt, rd) => (0x10, 0, rt, rd * 0x800)
    case Mtc0(rt, rd) => (0x10, 4, rt, rd * 0x800)
    case Mfc2(rt, rd) => (0x12, 0, rt, rd * 0x800)
    case Mtc2(rt, rd) => (0x12, 4, rt, rd * 0x800)
  }

  lemma SpecialEncodes(a: Asm)
    requires IsSpecial(a)
    ensures var f := SpecialFields(a); Encode(a) == RWord(f.0, f.1, f.2, f.3, f.4)
  {}

  lemma ShortEncodes(a: Asm)
    requires IsShort(a)
    ensures var f := ShortFields(a); Encode(a) == IWord(f.0, f.1, f.2, f.3)
  {}

  lemma SpecialFalls(pc: int, a: Asm, i: Instr)
    requires IsSpecial(a) && i.op == 0 && i.raw < 0x400_0000 && SpecialFields(a) == (i.rs, i.rt, i.rd, i.shamt, i.fn)
    ensures FallsThrough(pc, i)
  {
    match a {
      case Compute(f, _, _, _) => match f { case _ => }
      case _ =>
    }
  }

  lemma SpecialWrites(a: Asm, i: Instr)
    requires IsSpecial(a) && i.op == 0 && SpecialFields(a) == (i.rs, i.rt, i.rd, i.shamt, i.fn)
    ensures WritesKnown(a, i)
  {
    match a {
      case Compute(f, _, _, _) => match f { case _ => }
      case _ =>
    }
  }

  lemma SpecialUses(a: Asm, i: Instr)
    requires IsSpecial(a) && i.op == 0 && SpecialFields(a) == (i.rs, i.rt, i.rd, i.shamt, i.fn)
    ensures UsesKnown(a, i)
  {
    match a {
      case Compute(f, _, _, _) => match f { case _ => }
      case _ =>
    }
  }

  lemma SpecialScanned(a: Asm, i: Instr)
    requires IsSpecial(a) && i.op == 0 && SpecialFields(a) == (i.rs, i.rt, i.rd, i.shamt, i.fn)
    ensures ScannerKnows(a, i)
  {
    match a {
      case Compute(f, _, _, _) => match f { case _ => }
      case _ =>
    }
  }

  lemma ShortFalls(pc: int, a: Asm, i: Instr)
    requires IsShort(a) && i.raw < 0xFC00_0000 && i.raw != 0x4200_0010 && ShortFields(a) == (i.op, i.rs, i.rt, i.uimm)
    ensures FallsThrough(pc, i)
  {}

  lemma ShortRegisters(a: Asm, i: Instr)
    requires IsShort(a) && ShortFields(a) == (i.op, i.rs, i.rt, i.uimm)
    ensures RegistersKnown(a, i)
  {}

  /** Every ordinary word falls through in all the tools, and they know the registers it
      writes and uses; only the hazard scanner does not see moves from COP2. */
  lemma OrdinaryRoundTrip(pc: int, a: Asm)
    requires IsOrdinary(a)
    ensures FallsThrough(pc, Decode(Encode(a))) && RegistersKnown(a, Decode(Encode(a)))
  {
    if IsSpecial(a) {
      var f := SpecialFields(a);
      SpecialEncodes(a);
      DecodeR(f.0, f.1, f.2, f.3, f.4);
      SpecialFalls(pc, a, Decode(Encode(a)));
      SpecialWrites(a, Decode(Encode(a)));
      SpecialUses(a, Decode(Encode(a)));
      SpecialScanned(a, Decode(Encode(a)));
    } else {
      var f := ShortFields(a);
      ShortEncodes(a);
      DecodeI(f.0, f.1, f.2, f.3);
      assert Decode(0x4200_0010).rs == 16;
      ShortFalls(pc, a, Decode(Encode(a)));
      ShortRegisters(a, Decode(Encode(a)));
    }
  }

  // ---- the tools against each other ----

  /** Words on which the translator and the other tools differ by design: coprocessor and
      linking-branch words, branch-likely words and `mult`. */
  predicate Disputed(i: Instr) {
    || i.op in {0x10, 0x11, 0x12, 0x14, 0x15, 0x16, 0x17, 0x30, 0x31, 0x38, 0x39}
    || (i.op == 0x01 && i.rt in {0x10, 0x11}) || (i.op == 0 && i.fn == 0x18)
  }

  /** On every other word the translator supports exactly the valid instructions. */
  lemma ValidIsSupported(pc: int, w: Word)
    requires !Disputed(Decode(w))
    ensures var t := T.Translate(pc, Decode(w));
            IsValid(Decode(w)) <==> !t.Unsupported? && t != T.Ends(T.ReservedInstruction)
  {
    FieldsCompose(w);
    LowCompose(w);
  }

  /** On the disputed words: the classifier takes linking branches, `mult`, COP0 and COP2 words,
      `ll` and `sc`; the translator takes what is listed. */
  lemma DisputedWords(pc: int, w: Word)
    requires Disputed(Decode(w))
    ensures var i, t := Decode(w), T.Translate(pc, Decode(w));
            && (IsValid(i) <==> i.op in {0x00, 0x01, 0x10, 0x12, 0x30, 0x38})
            && (t.Straight? <==> || (i.op == 0x10 && i.rs in {0, 4}) || (i.op == 0x11 && i.rs !in {8, 12})
                                 || (i.op == 0x12 && (i.rs in {0, 2, 4, 6} || i.rs >= 16)) || i.op in {0x31, 0x39})
            && (t.Ends? <==> || w == 0x4200_0010 || (i.op == 0x11 && i.rs in {8, 12}) || i.op == 0x00)
            && (t == T.Ends(T.Rfe) <==> w == 0x4200_0010)
  {
    FieldsCompose(w);
    LowCompose(w);
  }

  /** On every supported word the four tools agree on whether and how control leaves it, and
      on every static destination. */
  lemma ToolsAgree(pc: int, w: Word)
    requires !Disputed(Decode(w)) && IsValid(Decode(w))
    ensures var i := Decode(w);
      match T.Translate(pc, i)
      case Ends(Cond(_, _, _, d)) =>
        Classify(pc, i) == Branch(d) && N.KindOf(pc, i) == N.CondBranch(d) && B.KindOf(pc, i) == B.Branch(d)
      case Ends(J(d)) => Classify(pc, i) == Jump(d) && N.KindOf(pc, i) == N.Goto(d) && B.KindOf(pc, i) == B.Jump(d)
      case Ends(Jal(d)) => Classify(pc, i) == Call(d) && N.KindOf(pc, i) == N.Calls && B.KindOf(pc, i) == B.Call(d)
      case Ends(Jr(rs)) => (Classify(pc, i).Return? || Classify(pc, i) == JumpReg(rs)) && N.KindOf(pc, i) == N.Indirect
                           && (B.KindOf(pc, i).Return? || B.KindOf(pc, i).JumpReg?)
      case Ends(Jalr(_, _)) => Classify(pc, i) == CallReg && N.KindOf(pc, i) == N.Calls && B.KindOf(pc, i) == B.CallReg
      case Straight =>
        Classify(pc, i) == Normal && !IsControlFlow(i) && N.KindOf(pc, i) == N.Inline && B.KindOf(pc, i) == B.Plain
      case _ => false
  {
    FieldsCompose(w);
    LowCompose(w);
  }

  /** Boundary evidence, read off the code: the region start, a word two behind `jr $ra`, or
      `addiu $sp, $sp, -n` that is not in a delay slot. */
  lemma CallableIff(img: Image, a: int, w: Word)
    requires a in img.words && img.words[a] == Decode(w)
    requires a - 8 in img.words ==> img.words[a - 8] == Decode(img.words[a - 8].raw)
    requires a - 4 in img.words ==> img.words[a - 4] == Decode(img.words[a - 4].raw)
    ensures Callable(img, a)
       <==> (&& IsValid(Decode(w))
             && (|| a == img.load
                 || (a - 8 in img.words && img.words[a - 8].raw == Encode(Jr(31)))
                 || ((exists n :: 1 <= n <= 0x8000 && w == PrologueWord(n))
                     && (a - 4 in img.words ==> Classify(a - 4, img.words[a - 4]).Normal?))))
  {
    assert Encode(Jr(31)) == 0x03E0_0008;
    PrologueIff(w);
    if a - 4 in img.words { FlowIff(a - 4, img.words[a - 4]); }
  }

  /** `addiu $sp, $sp, -n`. */
  function PrologueWord(n: int): Word
    requires 1 <= n <= 0x8000
  {
    Encode(Immediate(Addiu, 29, 29, Low16(-n)))
  }

  lemma PrologueIff(w: Word)
    ensures IsPrologue(Decode(w)) <==> exists n :: 1 <= n <= 0x8000 && w == PrologueWord(n)
  {
    if IsPrologue(Decode(w)) {
      FieldsCompose(w);
      var n := 0x1_0000 - Decode(w).uimm;
      assert w == PrologueWord(n);
    }
    if n :| 1 <= n <= 0x8000 && w == PrologueWord(n) { DecodeI(0x09, 29, 29, Low16(-n)); }
  }

  lemma FlowIff(pc: int, i: Instr)
    ensures IsControlFlow(i) <==> !Classify(pc, i).Normal?
  {}
}
