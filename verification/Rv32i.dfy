/** The RV32I base instruction set with machine-mode traps, one instruction at a time: the
    reference the pipeline is proved against. Written from the RISC-V Unprivileged ISA, chapter 2
    (formats and immediates: sections 2.2 and 2.3; instructions: sections 2.4 to 2.8), the Zicsr
    chapter, and the Privileged ISA, sections 3.1.6.1 and 3.3.2. Nothing here mentions a control
    signal, a pipeline stage or a memory lane. */
module Rv32i {
  import opened Bits

  datatype Option<T> = None | Some(value: T)

  /* ---- Architectural state ---- */

  type Regs = s: seq<Word> | |s| == 32 witness seq(32, _ => 0)

  /** Byte-addressed memory. */
  type Bytes = Word -> bv8

  /** The addresses that hold memory on this platform: 32 KiB from 0x100000. */
  predicate Present(a: Word) {
    0x10_0000 <= a < 0x10_8000
  }

  const USER: bv2 := 0
  const MACHINE: bv2 := 3

  datatype MachineCsrs = MachineCsrs(
    priv: bv2,
    mie: bool, mpie: bool, mpp: bv2,
    meie: bool, mtie: bool, msie: bool,
    mtvec: Word, mscratch: Word, mepc: Word, mcause: Word)

  datatype Arch = Arch(pc: Word, regs: Regs, csrs: MachineCsrs, mem: Bytes)

  /* ---- Instructions ---- */

  datatype Op = Add | Sub | Sll | Slt | Sltu | Xor | Srl | Sra | Or | And
  datatype Cond = Eq | Ne | Lt | Ge | Ltu | Geu
  datatype Width = Byte | Half | Full
  datatype CsrOp = Write | Set | Clear

  datatype Instr =
    | Lui(rd: RegIndex, imm: Word)
    | Auipc(rd: RegIndex, imm: Word)
    | Jal(rd: RegIndex, imm: Word)
    | Jalr(rd: RegIndex, rs1: RegIndex, imm: Word)
    | Branch(cond: Cond, rs1: RegIndex, rs2: RegIndex, imm: Word)
    | Load(width: Width, unsigned: bool, rd: RegIndex, rs1: RegIndex, imm: Word)
    | Store(width: Width, rs1: RegIndex, rs2: RegIndex, imm: Word)
    | OpImm(op: Op, rd: RegIndex, rs1: RegIndex, imm: Word)
    | OpReg(op: Op, rd: RegIndex, rs1: RegIndex, rs2: RegIndex)
    | Fence
    | Csr(kind: CsrOp, rd: RegIndex, rs1: RegIndex, csr: bv12)
    | Ecall
    | Ebreak
    | Mret

  /* ---- Instruction formats (section 2.3) ---- */

  function Rd(w: Word): RegIndex { RegIndexOf(((w >> 7) & 0x1f) as bv5) }
  function Rs1(w: Word): RegIndex { RegIndexOf(((w >> 15) & 0x1f) as bv5) }
  function Rs2(w: Word): RegIndex { RegIndexOf(((w >> 20) & 0x1f) as bv5) }
  function Funct3(w: Word): bv3 { ((w >> 12) & 7) as bv3 }
  function Funct7(w: Word): bv7 { ((w >> 25) & 0x7f) as bv7 }
  function CsrField(w: Word): bv12 { ((w >> 20) & 0xfff) as bv12 }

  /** All ones in every position selected by `mask` when bit 31 of the instruction is set. */
  function SignFill(w: Word, mask: Word): Word {
    if Negative(w) then mask else 0
  }

  function ImmI(w: Word): Word { SignFill(w, 0xffff_f800) | ((w >> 20) & 0x7ff) }
  function ImmS(w: Word): Word { SignFill(w, 0xffff_f800) | ((w >> 20) & 0x7e0) | ((w >> 7) & 0x1f) }
  function ImmB(w: Word): Word { SignFill(w, 0xffff_f000) | BitsB(w) }
  function BitsB(w: Word): Word { ((w << 4) & 0x800) | ((w >> 20) & 0x7e0) | ((w >> 7) & 0x1e) }
  function ImmU(w: Word): Word { w & 0xffff_f000 }
  function ImmJ(w: Word): Word { SignFill(w, 0xfff0_0000) | BitsJ(w) }
  function BitsJ(w: Word): Word { (w & 0xf_f000) | ((w >> 9) & 0x800) | ((w >> 20) & 0x7fe) }

  /* ---- Decoding ---- */

  function DecodeOp(w: Word): Option<Op> {
    var f3, f7 := Funct3(w), Funct7(w);
    if f7 == 0 then
      Some(if f3 == 0 then Add else if f3 == 1 then Sll else if f3 == 2 then Slt
           else if f3 == 3 then Sltu else if f3 == 4 then Xor else if f3 == 5 then Srl
           else if f3 == 6 then Or else And)
    else if f7 == 0x20 && f3 == 0 then Some(Sub)
    else if f7 == 0x20 && f3 == 5 then Some(Sra)
    else None
  }

  function DecodeOpImm(w: Word): Option<Op> {
    var f3, f7 := Funct3(w), Funct7(w);
    if f3 == 0 then Some(Add) else if f3 == 2 then Some(Slt) else if f3 == 3 then Some(Sltu)
    else if f3 == 4 then Some(Xor) else if f3 == 6 then Some(Or) else if f3 == 7 then Some(And)
    else if f3 == 1 then (if f7 == 0 then Some(Sll) else None)
    else if f7 == 0 then Some(Srl)
    else if f7 == 0x20 then Some(Sra)
    else None
  }

  function DecodeCond(w: Word): Option<Cond> {
    var f3 := Funct3(w);
    if f3 == 0 then Some(Eq) else if f3 == 1 then Some(Ne) else if f3 == 4 then Some(Lt)
    else if f3 == 5 then Some(Ge) else if f3 == 6 then Some(Ltu) else if f3 == 7 then Some(Geu)
    else None
  }

  function DecodeLoad(w: Word): (r: Option<Instr>)
    ensures r.Some? ==> r.value.Load?
  {
    var f3 := Funct3(w);
    if f3 == 0 then Some(Load(Byte, false, Rd(w), Rs1(w), ImmI(w)))
    else if f3 == 1 then Some(Load(Half, false, Rd(w), Rs1(w), ImmI(w)))
    else if f3 == 2 then Some(Load(Full, false, Rd(w), Rs1(w), ImmI(w)))
    else if f3 == 4 then Some(Load(Byte, true, Rd(w), Rs1(w), ImmI(w)))
    else if f3 == 5 then Some(Load(Half, true, Rd(w), Rs1(w), ImmI(w)))
    else None
  }

  function DecodeStore(w: Word): (r: Option<Instr>)
    ensures r.Some? ==> r.value.Store?
  {
    var f3 := Funct3(w);
    if f3 == 0 then Some(Store(Byte, Rs1(w), Rs2(w), ImmS(w)))
    else if f3 == 1 then Some(Store(Half, Rs1(w), Rs2(w), ImmS(w)))
    else if f3 == 2 then Some(Store(Full, Rs1(w), Rs2(w), ImmS(w)))
    else None
  }

  /** SYSTEM: the register forms of the CSR instructions, ECALL, EBREAK and MRET. */
  function DecodeSystem(w: Word): (r: Option<Instr>)
    ensures r.Some? ==> r.value.Csr? || r.value.Ecall? || r.value.Ebreak? || r.value.Mret?
  {
    var f3 := Funct3(w);
    if f3 == 1 then Some(Csr(Write, Rd(w), Rs1(w), CsrField(w)))
    else if f3 == 2 then Some(Csr(Set, Rd(w), Rs1(w), CsrField(w)))
    else if f3 == 3 then Some(Csr(Clear, Rd(w), Rs1(w), CsrField(w)))
    else if w == 0x0000_0073 then Some(Ecall)
    else if w == 0x0010_0073 then Some(Ebreak)
    else if w == 0x3020_0073 then Some(Mret)
    else None
  }

  /** FENCE with its reserved fields zero; on one hart with one memory it orders nothing. */
  function DecodeFence(w: Word): (r: Option<Instr>)
    ensures r.Some? ==> r.value.Fence?
  {
    if Funct3(w) == 0 && w & 0xf00f_8f80 == 0 then Some(Fence) else None
  }

  function Decode(w: Word): Option<Instr> {
    var opcode := (w & 0x7f) as bv7;
    if opcode == 0x37 then Some(Lui(Rd(w), ImmU(w)))
    else if opcode == 0x17 then Some(Auipc(Rd(w), ImmU(w)))
    else if opcode == 0x6f then Some(Jal(Rd(w), ImmJ(w)))
    else if opcode == 0x67 then (if Funct3(w) == 0 then Some(Jalr(Rd(w), Rs1(w), ImmI(w))) else None)
    else if opcode == 0x63 then
      var c := DecodeCond(w);
      if c.Some? then Some(Branch(c.value, Rs1(w), Rs2(w), ImmB(w))) else None
    else if opcode == 0x03 then DecodeLoad(w)
    else if opcode == 0x23 then DecodeStore(w)
    else if opcode == 0x13 then
      var o := DecodeOpImm(w);
      if o.Some? then Some(OpImm(o.value, Rd(w), Rs1(w), ImmI(w))) else None
    else if opcode == 0x33 then
      var o := DecodeOp(w);
      if o.Some? then Some(OpReg(o.value, Rd(w), Rs1(w), Rs2(w))) else None
    else if opcode == 0x0f then DecodeFence(w)
    else if opcode == 0x73 then DecodeSystem(w)
    else None
  }

  /* ---- Values ---- */

  /** Two's-complement order: operands of different sign are ordered by their signs. */
  predicate SignedLess(a: Word, b: Word) {
    if Negative(a) != Negative(b) then Negative(a) else a < b
  }

  function Compute(op: Op, a: Word, b: Word): Word {
    match op
    case Add => a + b
    case Sub => a - b
    case Sll => a << ShiftAmount(b)
    case Slt => BoolWord(SignedLess(a, b))
    case Sltu => BoolWord(a < b)
    case Xor => a ^ b
    case Srl => a >> ShiftAmount(b)
    case Sra => ShiftRightArithmetic(a, ShiftAmount(b))
    case Or => a | b
    case And => a & b
  }

  predicate Holds(c: Cond, a: Word, b: Word) {
    match c
    case Eq => a == b
    case Ne => a != b
    case Lt => SignedLess(a, b)
    case Ge => !SignedLess(a, b)
    case Ltu => a < b
    case Geu => b <= a
  }

  /* ---- Memory (section 2.6): little-endian, byte addressed ---- */

  function ByteCount(w: Width): Word {
    match w case Byte => 1 case Half => 2 case Full => 4
  }

  /** The access does not cross a word boundary; every aligned access satisfies this. */
  predicate InOneWord(a: Word, w: Width) {
    (a & 3) + ByteCount(w) <= 4
  }

  predicate Accessible(a: Word, w: Width) {
    Present(a) && InOneWord(a, w)
  }

  function HalfOf(b0: bv8, b1: bv8): Word {
    (b0 as Word) | ((b1 as Word) << 8)
  }

  function FullOf(b0: bv8, b1: bv8, b2: bv8, b3: bv8): Word {
    HalfOf(b0, b1) | (HalfOf(b2, b3) << 16)
  }

  function ReadHalf(mem: Bytes, a: Word): Word {
    HalfOf(mem(a), mem(a + 1))
  }

  function ReadFull(mem: Bytes, a: Word): Word {
    FullOf(mem(a), mem(a + 1), mem(a + 2), mem(a + 3))
  }

  function LoadValue(mem: Bytes, a: Word, w: Width, unsigned: bool): Word {
    match w
    case Byte => if unsigned then mem(a) as Word else SignExtend(mem(a) as Word, 0x80)
    case Half => if unsigned then ReadHalf(mem, a) else SignExtend(ReadHalf(mem, a), 0x8000)
    case Full => ReadFull(mem, a)
  }

  /** Byte k of a value, counted from the least significant. */
  function ByteOf(v: Word, k: bv2): bv8 {
    ((v >> ((k as bv5) << 3)) & 0xff) as bv8
  }

  function Distance(a: Word, b: Word): Word {
    b - a
  }

  /** What the byte d past the address of a store holds after it. */
  function StoredByte(before: bv8, d: Word, w: Width, v: Word): bv8 {
    if d < ByteCount(w) then ByteOf(v, (d & 3) as bv2) else before
  }

  /** The addressed bytes become the low bytes of v; no other byte changes. */
  function StoreValue(mem: Bytes, a: Word, w: Width, v: Word): Bytes {
    b => StoredByte(mem(b), Distance(a, b), w, v)
  }

  /* ---- Registers and CSRs ---- */

  function Get(regs: Regs, r: RegIndex): Word {
    if r == 0 then 0 else regs[r]
  }

  function Put(regs: Regs, r: RegIndex, v: Word): Regs {
    if r == 0 then regs else regs[r := v]
  }

  const MSTATUS: bv12 := 0x300
  const MIE: bv12 := 0x304
  const MTVEC: bv12 := 0x305
  const MSCRATCH: bv12 := 0x340
  const MEPC: bv12 := 0x341
  const MCAUSE: bv12 := 0x342

  predicate ReadWriteCsr(a: bv12) {
    a == MSTATUS || a == MIE || a == MTVEC || a == MSCRATCH || a == MEPC || a == MCAUSE
  }

  function Bit(b: bool, mask: Word): Word {
    if b then mask else 0
  }

  function ReadCsr(c: MachineCsrs, a: bv12): Word {
    if a == MSTATUS then Bit(c.mie, 0x8) | Bit(c.mpie, 0x80) | ((c.mpp as Word) << 11)
    else if a == MIE then Bit(c.msie, 0x8) | Bit(c.mtie, 0x80) | Bit(c.meie, 0x800)
    else if a == MTVEC then c.mtvec
    else if a == MSCRATCH then c.mscratch
    else if a == MEPC then c.mepc
    else if a == MCAUSE then c.mcause
    else 0
  }

  /** WARL fields: mepc is IALIGN-aligned, mstatus and mie hold only the fields that exist. */
  function WriteCsr(c: MachineCsrs, a: bv12, v: Word): MachineCsrs {
    if a == MSTATUS then
      c.(mie := v & 0x8 != 0, mpie := v & 0x80 != 0, mpp := ((v >> 11) & 3) as bv2)
    else if a == MIE then c.(msie := v & 0x8 != 0, mtie := v & 0x80 != 0, meie := v & 0x800 != 0)
    else if a == MTVEC then c.(mtvec := v)
    else if a == MSCRATCH then c.(mscratch := v)
    else if a == MEPC then c.(mepc := WordAddress(v))
    else if a == MCAUSE then c.(mcause := v)
    else c
  }

  /** CSRRS and CSRRC with rs1 = x0 do not write. */
  function CsrEffect(c: MachineCsrs, kind: CsrOp, a: bv12, rs1: RegIndex, v: Word): MachineCsrs {
    match kind
    case Write => WriteCsr(c, a, v)
    case Set => if rs1 == 0 then c else WriteCsr(c, a, SetBits(ReadCsr(c, a), v))
    case Clear => if rs1 == 0 then c else WriteCsr(c, a, ClearBits(ReadCsr(c, a), v))
  }

  const CAUSE_BREAKPOINT: Word := 3
  const CAUSE_ECALL_M: Word := 11

  /** Trap entry into machine mode. */
  function Trap(c: MachineCsrs, pc: Word, cause: Word): MachineCsrs {
    c.(priv := MACHINE, mpp := c.priv, mpie := c.mie, mie := false, mepc := pc, mcause := cause)
  }

  /** MRET. */
  function Return(c: MachineCsrs): MachineCsrs {
    c.(priv := c.mpp, mie := c.mpie, mpie := true, mpp := USER)
  }

  /* ---- One instruction ---- */

  ghost function NextPc(s: Arch, i: Instr): Word {
    match i
    case Jal(_, imm) => Plus(s.pc, imm)
    case Jalr(_, rs1, imm) => EvenAddress(Plus(Get(s.regs, rs1), imm))
    case Branch(c, rs1, rs2, imm) =>
      if Holds(c, Get(s.regs, rs1), Get(s.regs, rs2)) then Plus(s.pc, imm) else Plus(s.pc, 4)
    case Ecall => s.csrs.mtvec
    case Ebreak => s.csrs.mtvec
    case Mret => s.csrs.mepc
    case _ => Plus(s.pc, 4)
  }

  /** Instructions with a destination register. */
  predicate WritesRd(i: Instr) {
    !(i.Branch? || i.Store? || i.Fence? || i.Ecall? || i.Ebreak? || i.Mret?)
  }

  /** The value instruction i puts in its destination register. */
  ghost function Result(s: Arch, i: Instr): Word
    requires WritesRd(i)
  {
    match i
    case Lui(_, imm) => imm
    case Auipc(_, imm) => Plus(s.pc, imm)
    case Jal(_, _) => Plus(s.pc, 4)
    case Jalr(_, _, _) => Plus(s.pc, 4)
    case Load(w, unsigned, _, rs1, imm) => LoadValue(s.mem, Plus(Get(s.regs, rs1), imm), w, unsigned)
    case OpImm(op, _, rs1, imm) => Compute(op, Get(s.regs, rs1), imm)
    case OpReg(op, _, rs1, rs2) => Compute(op, Get(s.regs, rs1), Get(s.regs, rs2))
    case Csr(_, _, _, a) => ReadCsr(s.csrs, a)
  }

  ghost function NextRegs(s: Arch, i: Instr): Regs {
    if WritesRd(i) then Put(s.regs, i.rd, Result(s, i)) else s.regs
  }

  ghost function NextCsrs(s: Arch, i: Instr): MachineCsrs {
    match i
    case Csr(kind, _, rs1, a) => CsrEffect(s.csrs, kind, a, rs1, Get(s.regs, rs1))
    case Ecall => Trap(s.csrs, s.pc, CAUSE_ECALL_M)
    case Ebreak => Trap(s.csrs, s.pc, CAUSE_BREAKPOINT)
    case Mret => Return(s.csrs)
    case _ => s.csrs
  }

  ghost function NextMem(s: Arch, i: Instr): Bytes {
    match i
    case Store(w, rs1, rs2, imm) => StoreValue(s.mem, Plus(Get(s.regs, rs1), imm), w, Get(s.regs, rs2))
    case _ => s.mem
  }

  /** Loads, stores and transfers of control that neither fault nor misalign, the CSRs that exist,
      and returns into machine mode. */
  ghost predicate Permitted(s: Arch, i: Instr) {
    match i
    case Load(w, _, _, rs1, imm) => Accessible(Plus(Get(s.regs, rs1), imm), w)
    case Store(w, rs1, _, imm) => Accessible(Plus(Get(s.regs, rs1), imm), w)
    case Csr(_, _, _, a) => ReadWriteCsr(a)
    case Mret => s.csrs.mpp == MACHINE
    case _ => true
  }

  /** The state after instruction i, fetched at s.pc. */
  ghost function Execute(s: Arch, i: Instr): Arch {
    Arch(NextPc(s, i), NextRegs(s, i), NextCsrs(s, i), NextMem(s, i))
  }

  ghost predicate Fetchable(s: Arch) {
    WordAligned(s.pc) && Present(s.pc)
  }

  /** The instruction at the program counter. */
  ghost function Current(s: Arch): Option<Instr> {
    if Fetchable(s) then Decode(ReadFull(s.mem, s.pc)) else None
  }

  /** Instruction i can be performed at s.pc. */
  ghost predicate CanPerform(s: Arch, i: Instr) {
    Fetchable(s) && Permitted(s, i) && WordAligned(NextPc(s, i))
  }

  ghost predicate CanStep(s: Arch) {
    Current(s).Some? && CanPerform(s, Current(s).value)
  }

  ghost function Step(s: Arch): Arch
    requires CanStep(s)
  {
    Execute(s, Current(s).value)
  }
}
