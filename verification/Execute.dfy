/** The execute and write-back stages: immediates, ALU, branch comparison, store lanes, load lanes. */
module Execute {
  import opened Bits
  import opened Control

  /* ---- Instruction fields ---- */

  datatype Fields = Fields(rs1: RegIndex, rs2: RegIndex, rd: RegIndex, csr: bv12)

  function FieldsOf(w: Word): (r: Fields) {
    Fields(RegIndexOf(Slice(w, 15, 0x1f) as bv5), RegIndexOf(Slice(w, 20, 0x1f) as bv5),
           RegIndexOf(Slice(w, 7, 0x1f) as bv5), Slice(w, 20, 0xfff) as bv12)
  }

  /** The branch and jump offsets before sign extension. */
  function FieldB(w: Word): (r: Word) {
    (Slice(w, 31, 1) << 12) | (Slice(w, 7, 1) << 11) | (Slice(w, 25, 0x3f) << 5) | (Slice(w, 8, 0xf) << 1)
  }

  function FieldJ(w: Word): (r: Word) {
    (Slice(w, 31, 1) << 20) | (Slice(w, 12, 0xff) << 12) | (Slice(w, 20, 1) << 11)
    | (Slice(w, 25, 0x3f) << 5) | (Slice(w, 21, 0xf) << 1)
  }

  /** Each format gathers its bits into a narrow field, which is then sign extended. ImmX is a
      don't-care: no consumer looks at the value. */
  function Immediate(sel: ImmSel, w: Word): (r: Word) {
    match sel
    case ImmSelI => SignExtend(Slice(w, 20, 0xfff), 0x800)
    case ImmSelS => SignExtend((Slice(w, 25, 0x7f) << 5) | Slice(w, 7, 0x1f), 0x800)
    case ImmSelB => SignExtend(FieldB(w), 0x1000)
    case ImmSelU => Slice(w, 12, 0xf_ffff) << 12
    case ImmSelJ => SignExtend(FieldJ(w), 0x10_0000)
    case ImmSelZ => Slice(w, 15, 0x1f)
    case ImmX => 0
  }

  /* ---- ALU and branch unit ---- */

  /** Signed order by flipping the sign bits. */
  predicate LessSigned(a: Word, b: Word) {
    a ^ 0x8000_0000 < b ^ 0x8000_0000
  }

  function Alu(op: AluOp, a: Word, b: Word): (r: Word) {
    var shamt := ShiftAmount(b);
    match op
    case AluAdd => Plus(a, b)
    case AluSub => a + (0 - b)
    case AluAnd => a & b
    case AluOr => a | b
    case AluXor => a ^ b
    case AluSlt => BoolWord(LessSigned(a, b))
    case AluSll => a << shamt
    case AluSltu => BoolWord(a < b)
    case AluSrl => a >> shamt
    case AluSra => ShiftRightArithmetic(a, shamt)
    case AluCopyB => b
    case AluCopyA => a
    case AluNone => a
  }

  predicate Taken(t: BrType, rs1: Word, rs2: Word) {
    match t
    case BrNone => false
    case BrEq => rs1 == rs2
    case BrNe => !(rs1 == rs2)
    case BrLt => LessSigned(rs1, rs2)
    case BrGe => !LessSigned(rs1, rs2)
    case BrLtu => rs1 < rs2
    case BrGeu => !(rs1 < rs2)
  }

  /* ---- Lanes ---- */

  /** Bit offset of the addressed byte inside its word. */
  function LaneShift(a: Word): (r: bv5) {
    (((Slice(a, 1, 1)) << 4) | ((Slice(a, 0, 1)) << 3)) as bv5
  }

  /** Store data moved to its lanes. */
  function StoreLanes(v: Word, a: Word): (r: Word) {
    ShiftLeft(v, LaneShift(a))
  }

  /** A shifted mask keeps only the four lanes of the word. */
  function ByteEnables(t: StType, a: Word): (r: bv4) {
    var off := Slice(a, 0, 3) as bv2;
    match t
    case StSh => (3 as bv4) << off
    case StSb => (1 as bv4) << off
    case _ => 0xf
  }

  /** What the execute stage hands on: the operand the CSR unit will see, the ALU result, the
      branch outcome and the data-memory request. */
  datatype Outcome = Outcome(
    rs1r: Word, aluOut: Word, taken: bool,
    req: bool, we: bool, addr: Word, wdata: Word, be: bv4)

  function Perform(c: Signals, w: Word, pc: Word, rs1r: Word, rs2r: Word): (r: Outcome) {
    var a := if c.aSel == ARs1 then rs1r else pc;
    var b := if c.bSel == BRs2 then rs2r else Immediate(c.immSel, w);
    var out := Alu(c.aluOp, a, b);
    Outcome(rs1r, out, Taken(c.brType, rs1r, rs2r),
            c.ldType != LdNone || c.stType != StNone, c.stType != StNone,
            WordAddress(out), StoreLanes(rs2r, out), ByteEnables(c.stType, out))
  }

  /** Load extraction in the write-back stage. */
  function LoadLanes(t: LdType, aluOut: Word, ld: Word): (r: Word) {
    var shifted := ld >> LaneShift(aluOut);
    match t
    case LdLh => SignExtend(shifted & 0xffff, 0x8000)
    case LdLb => SignExtend(shifted & 0xff, 0x80)
    case LdLhu => shifted & 0xffff
    case LdLbu => shifted & 0xff
    case _ => ld
  }

  function WritebackValue(sel: WbSel, t: LdType, aluOut: Word, ld: Word, pc: Word, csr: Word): (r: Word) {
    match sel
    case WbAlu => aluOut
    case WbMem => LoadLanes(t, aluOut, ld)
    case WbPc4 => Plus(pc, 4)
    case WbCsr => csr
  }
}
