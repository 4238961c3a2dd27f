/** MIPS I words, captured images and the control-flow classification that every
    walker of the tools shares. Addresses are unbounded integers, as they are in
    the Python tools; words are 32-bit values. */
module Mips {

  type Byte = b: int | 0 <= b < 0x100
  type Word = w: int | 0 <= w < 0x1_0000_0000
  type Half = h: int | 0 <= h < 0x1_0000
  type Index26 = t: int | 0 <= t < 0x400_0000
  type Reg = r: int | 0 <= r < 32

  /** The general registers; register 0 is hardwired to zero. */
  type Regs = r: seq<Word> | |r| == 32 witness seq(32, i => 0)

  function SetReg(r: Regs, d: Reg, v: Word): Regs { if d == 0 then r else r[d := v] }

  function Pow2(n: nat): (p: nat)
    ensures p > 0
  {
    if n == 0 then 1 else 2 * Pow2(n - 1)
  }

  function Wrap(v: int): Word { v % 0x1_0000_0000 }

  datatype Option<+T> = None | Some(value: T)

  /** An instruction word with its fields. */
  datatype Instr = Instr(raw: Word, op: int, rs: Reg, rt: Reg, rd: Reg, shamt: Reg, fn: int,
                         uimm: Half, target26: Index26)
  {
    /** The all-zero word. */
    predicate IsNop() { op == 0 && rs == 0 && rt == 0 && rd == 0 && shamt == 0 && fn == 0 }

    function Simm(): int { if uimm >= 0x8000 then uimm - 0x1_0000 else uimm }
  }

  function Decode(w: Word): Instr {
    Instr(w, w / 0x400_0000, w / 0x20_0000 % 32, w / 0x1_0000 % 32, w / 0x800 % 32, w / 0x40 % 32, w % 64,
          w % 0x1_0000, w % 0x400_0000)
  }

  /** A captured RAM region, as the words that can be read from it. `size` is the size
      the capture declares; the tools use it for region tests, while word reads are
      bounded by the captured bytes. */
  datatype Image = Image(words: map<int, Instr>, load: nat, size: nat) {
    function Hi(): int { load + size }

    /** Aligned and inside the declared region. */
    predicate InRegion(a: int) { load <= a < Hi() && a % 4 == 0 }
  }

  /** The image of captured bytes: a little-endian word at every offset, aligned or
      not, whose four bytes were captured. */
  function FromBytes(data: seq<Byte>, load: nat, size: nat): Image {
    Image(map a | load <= a < load + |data| && Captured(data, load, a) :: ReadWord(data, load, a), load, size)
  }

  predicate Captured(data: seq<Byte>, load: nat, a: int) { load <= a && a + 4 <= load + |data| }

  function ReadWord(data: seq<Byte>, load: nat, a: int): Instr
    requires Captured(data, load, a)
  {
    var o := a - load;
    Decode(LittleEndian(data[o], data[o + 1], data[o + 2], data[o + 3]))
  }

  function LittleEndian(b0: Byte, b1: Byte, b2: Byte, b3: Byte): Word {
    b0 + 0x100 * b1 + 0x1_0000 * b2 + 0x100_0000 * b3
  }

  /** The physical address behind a segment alias. */
  function Phys(a: int): int { a % 0x2000_0000 }

  function JumpTarget(pc: int, i: Instr): int {
    (pc + 4) / 0x1000_0000 % 16 * 0x1000_0000 + i.target26 * 4
  }

  function BranchTarget(pc: int, i: Instr): int { pc + 4 + i.Simm() * 4 }

  // ---- control-flow classification ----

  datatype Transfer =
    | Normal
    | Branch(target: int)
    | Jump(target: int)
    | Call(target: int)
    | CallReg
    | JumpReg(rs: Reg)
    | Return

  function Classify(pc: int, i: Instr): Transfer {
    if i.op == 0 && i.fn == 0x08 then (if i.rs == 31 then Return else JumpReg(i.rs))
    else if i.op == 0 && i.fn == 0x09 then CallReg
    else if i.op == 0x02 then Jump(JumpTarget(pc, i))
    else if i.op == 0x03 then Call(JumpTarget(pc, i))
    else if i.op in {0x01, 0x04, 0x05, 0x06, 0x07, 0x14, 0x15, 0x16, 0x17} then Branch(BranchTarget(pc, i))
    else Normal
  }

  predicate IsControlFlow(i: Instr) {
    i.op in {0x01, 0x02, 0x03, 0x04, 0x05, 0x06, 0x07, 0x14, 0x15, 0x16, 0x17}
    || (i.op == 0 && i.fn in {0x08, 0x09})
  }

  predicate IsValid(i: Instr) {
    && i.raw != 0xFFFF_FFFF && i.raw != 0xFFFF_FFFD
    && if i.op == 0 then
         i.fn in {0x00, 0x02, 0x03, 0x04, 0x06, 0x07, 0x08, 0x09, 0x0C, 0x0D,
                  0x10, 0x11, 0x12, 0x13, 0x18, 0x19, 0x1A, 0x1B,
                  0x20, 0x21, 0x22, 0x23, 0x24, 0x25, 0x26, 0x27, 0x2A, 0x2B}
       else if i.op == 1 then i.rt in {0x00, 0x01, 0x10, 0x11}
       else
         i.op in {0x02, 0x03, 0x04, 0x05, 0x06, 0x07, 0x08, 0x09, 0x0A, 0x0B, 0x0C, 0x0D,
                  0x0E, 0x0F, 0x10, 0x12, 0x20, 0x21, 0x22, 0x23, 0x24, 0x25, 0x26,
                  0x28, 0x29, 0x2A, 0x2B, 0x2E, 0x30, 0x32, 0x38, 0x3A}
  }

  /** `addiu $sp, $sp, -n`: the usual function prologue. */
  predicate IsPrologue(i: Instr) { i.op == 0x09 && i.rs == 29 && i.rt == 29 && i.uimm >= 0x8000 }

  /** Boundary evidence for a function entry: the region start, a return two words
      earlier, or a prologue that is not a delay slot. */
  predicate Callable(img: Image, a: int) {
    && a in img.words && IsValid(img.words[a])
    && (|| a == img.load
        || (a - 8 in img.words && img.words[a - 8].raw == 0x03E0_0008)
        || (IsPrologue(img.words[a]) && (a - 4 in img.words ==> !IsControlFlow(img.words[a - 4]))))
  }

  /** The general registers that an instruction writes, as the hazard scanner sees
      them; `None` is its "unknown primary opcode" error. */
  function Writes(i: Instr): Option<set<Reg>> {
    if i.IsNop() then Some({})
    else if i.op == 0x00 then
      if i.fn in {0x00, 0x02, 0x03, 0x04, 0x06, 0x07, 0x20, 0x21, 0x22, 0x23, 0x24, 0x25, 0x26, 0x27, 0x2A, 0x2B,
                  0x10, 0x12, 0x09} then Some({i.rd})
      else Some({})
    else if i.op == 0x01 then (if i.rt in {0x10, 0x11} then Some({31}) else Some({}))
    else if i.op == 0x02 then Some({})
    else if i.op == 0x03 then Some({31})
    else if i.op in {0x04, 0x05, 0x06, 0x07} then Some({})
    else if i.op in {0x08, 0x09, 0x0A, 0x0B, 0x0C, 0x0D, 0x0E, 0x0F} then Some({i.rt})
    else if i.op == 0x10 then (if i.rs == 0 then Some({i.rt}) else Some({}))
    else if i.op in {0x11, 0x12} then Some({})
    else if i.op in {0x20, 0x21, 0x22, 0x23, 0x24, 0x25, 0x26} then Some({i.rt})
    else if i.op in {0x28, 0x29, 0x2A, 0x2B, 0x2E} then Some({})
    else if i.op in {0x30, 0x31, 0x32, 0x33, 0x38, 0x39, 0x3A, 0x3B} then Some({})
    else None
  }
}
