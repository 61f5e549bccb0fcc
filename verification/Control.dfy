/** The decode table: which control signals each instruction pattern selects. */
module Control {
  import opened Bits

  datatype CsrType = CsrN | CsrW | CsrS | CsrC | CsrEc | CsrEb | CsrEr
  datatype PcSel = PcPlus4 | PcAlu | PcPlus0 | PcEpc
  datatype ASel = ANone | APc | ARs1
  datatype BSel = BNone | BImm | BRs2
  datatype ImmSel = ImmX | ImmSelI | ImmSelS | ImmSelU | ImmSelJ | ImmSelB | ImmSelZ
  datatype BrType = BrNone | BrLtu | BrLt | BrEq | BrGeu | BrGe | BrNe
  datatype StType = StNone | StSw | StSh | StSb
  datatype LdType = LdNone | LdLw | LdLh | LdLb | LdLhu | LdLbu
  datatype WbSel = WbAlu | WbMem | WbPc4 | WbCsr
  datatype AluOp =
    | AluAdd | AluSub | AluAnd | AluOr | AluXor | AluSlt | AluSll | AluSltu | AluSrl | AluSra
    | AluCopyA | AluCopyB | AluNone

  datatype Signals = Signals(
    pcSel: PcSel, aSel: ASel, bSel: BSel, immSel: ImmSel, aluOp: AluOp, brType: BrType,
    instKill: bool, stType: StType, ldType: LdType, wbSel: WbSel, wbEn: bool, illegal: bool,
    csrType: CsrType)

  /** A pattern of fixed bits (where the mask is set) and don't-care bits. */
  datatype BitPat = BitPat(mask: Word, value: Word)

  predicate Matches(w: Word, p: BitPat) {
    w & p.mask == p.value
  }

  const LUI := BitPat(0x0000_007f, 0x0000_0037)
  const AUIPC := BitPat(0x0000_007f, 0x0000_0017)
  const JAL := BitPat(0x0000_007f, 0x0000_006f)
  const JALR := BitPat(0x0000_707f, 0x0000_0067)
  const BEQ := BitPat(0x0000_707f, 0x0000_0063)
  const BNE := BitPat(0x0000_707f, 0x0000_1063)
  const BLT := BitPat(0x0000_707f, 0x0000_4063)
  const BGE := BitPat(0x0000_707f, 0x0000_5063)
  const BLTU := BitPat(0x0000_707f, 0x0000_6063)
  const BGEU := BitPat(0x0000_707f, 0x0000_7063)
  const LB := BitPat(0x0000_707f, 0x0000_0003)
  const LH := BitPat(0x0000_707f, 0x0000_1003)
  const LW := BitPat(0x0000_707f, 0x0000_2003)
  const LBU := BitPat(0x0000_707f, 0x0000_4003)
  const LHU := BitPat(0x0000_707f, 0x0000_5003)
  const SB := BitPat(0x0000_707f, 0x0000_0023)
  const SH := BitPat(0x0000_707f, 0x0000_1023)
  const SW := BitPat(0x0000_707f, 0x0000_2023)
  const ADDI := BitPat(0x0000_707f, 0x0000_0013)
  const SLTI := BitPat(0x0000_707f, 0x0000_2013)
  const SLTIU := BitPat(0x0000_707f, 0x0000_3013)
  const XORI := BitPat(0x0000_707f, 0x0000_4013)
  const ORI := BitPat(0x0000_707f, 0x0000_6013)
  const ANDI := BitPat(0x0000_707f, 0x0000_7013)
  const SLLI := BitPat(0xfe00_707f, 0x0000_1013)
  const SRLI := BitPat(0xfe00_707f, 0x0000_5013)
  const SRAI := BitPat(0xfe00_707f, 0x4000_5013)
  const ADD := BitPat(0xfe00_707f, 0x0000_0033)
  const SUB := BitPat(0xfe00_707f, 0x4000_0033)
  const SLL := BitPat(0xfe00_707f, 0x0000_1033)
  const SLT := BitPat(0xfe00_707f, 0x0000_2033)
  const SLTU := BitPat(0xfe00_707f, 0x0000_3033)
  const XOR := BitPat(0xfe00_707f, 0x0000_4033)
  const SRL := BitPat(0xfe00_707f, 0x0000_5033)
  const SRA := BitPat(0xfe00_707f, 0x4000_5033)
  const OR := BitPat(0xfe00_707f, 0x0000_6033)
  const AND := BitPat(0xfe00_707f, 0x0000_7033)
  const FENCE := BitPat(0xf00f_ffff, 0x0000_000f)
  const FENCEI := BitPat(0xffff_ffff, 0x0000_100f)
  const CSRRW := BitPat(0x0000_707f, 0x0000_1073)
  const CSRRS := BitPat(0x0000_707f, 0x0000_2073)
  const CSRRC := BitPat(0x0000_707f, 0x0000_3073)
  const CSRRWI := BitPat(0x0000_707f, 0x0000_5073)
  const CSRRSI := BitPat(0x0000_707f, 0x0000_6073)
  const CSRRCI := BitPat(0x0000_707f, 0x0000_7073)
  const ECALL := BitPat(0xffff_ffff, 0x0000_0073)
  const EBREAK := BitPat(0xffff_ffff, 0x0010_0073)
  const ERET := BitPat(0xcfff_ffff, 0x0020_0073)
  const WFI := BitPat(0xffff_ffff, 0x1020_0073)

  const NOP: Word := 0x0000_0013

  /** A row that neither moves control, stores, loads nor touches a CSR: the ALU result goes to rd. */
  function AluRow(a: ASel, b: BSel, imm: ImmSel, op: AluOp): (r: Signals) {
    Signals(PcPlus4, a, b, imm, op, BrNone, false, StNone, LdNone, WbAlu, true, false, CsrN)
  }

  const DEFAULT :=
    Signals(PcPlus4, ANone, BNone, ImmX, AluNone, BrNone, false, StNone, LdNone, WbAlu, false, true, CsrN)

  /** The table, first row to match; the rows are disjoint except ERET and WFI. */
  function Decode(w: Word): (r: Signals) {
    if Matches(w, LUI) then AluRow(APc, BImm, ImmSelU, AluCopyB)
    else if Matches(w, AUIPC) then AluRow(APc, BImm, ImmSelU, AluAdd)
    else if Matches(w, JAL) then
      Signals(PcAlu, APc, BImm, ImmSelJ, AluAdd, BrNone, true, StNone, LdNone, WbPc4, true, false, CsrN)
    else if Matches(w, JALR) then
      Signals(PcAlu, ARs1, BImm, ImmSelI, AluAdd, BrNone, true, StNone, LdNone, WbPc4, true, false, CsrN)
    else if Matches(w, BEQ) then
      Signals(PcPlus4, APc, BImm, ImmSelB, AluAdd, BrEq, false, StNone, LdNone, WbAlu, false, false, CsrN)
    else if Matches(w, BNE) then
      Signals(PcPlus4, APc, BImm, ImmSelB, AluAdd, BrNe, false, StNone, LdNone, WbAlu, false, false, CsrN)
    else if Matches(w, BLT) then
      Signals(PcPlus4, APc, BImm, ImmSelB, AluAdd, BrLt, false, StNone, LdNone, WbAlu, false, false, CsrN)
    else if Matches(w, BGE) then
      Signals(PcPlus4, APc, BImm, ImmSelB, AluAdd, BrGe, false, StNone, LdNone, WbAlu, false, false, CsrN)
    else if Matches(w, BLTU) then
      Signals(PcPlus4, APc, BImm, ImmSelB, AluAdd, BrLtu, false, StNone, LdNone, WbAlu, false, false, CsrN)
    else if Matches(w, BGEU) then
      Signals(PcPlus4, APc, BImm, ImmSelB, AluAdd, BrGeu, false, StNone, LdNone, WbAlu, false, false, CsrN)
    else DecodeMemory(w)
  }

  /** The rows from LB on. */
  function DecodeMemory(w: Word): (r: Signals) {
    if Matches(w, LB) then
      Signals(PcPlus0, ARs1, BImm, ImmSelI, AluAdd, BrNone, true, StNone, LdLb, WbMem, true, false, CsrN)
    else if Matches(w, LH) then
      Signals(PcPlus0, ARs1, BImm, ImmSelI, AluAdd, BrNone, true, StNone, LdLh, WbMem, true, false, CsrN)
    else if Matches(w, LW) then
      Signals(PcPlus0, ARs1, BImm, ImmSelI, AluAdd, BrNone, true, StNone, LdLw, WbMem, true, false, CsrN)
    else if Matches(w, LBU) then
      Signals(PcPlus0, ARs1, BImm, ImmSelI, AluAdd, BrNone, true, StNone, LdLbu, WbMem, true, false, CsrN)
    else if Matches(w, LHU) then
      Signals(PcPlus0, ARs1, BImm, ImmSelI, AluAdd, BrNone, true, StNone, LdLhu, WbMem, true, false, CsrN)
    else if Matches(w, SB) then
      Signals(PcPlus4, ARs1, BImm, ImmSelS, AluAdd, BrNone, false, StSb, LdNone, WbAlu, false, false, CsrN)
    else if Matches(w, SH) then
      Signals(PcPlus4, ARs1, BImm, ImmSelS, AluAdd, BrNone, false, StSh, LdNone, WbAlu, false, false, CsrN)
    else if Matches(w, SW) then
      Signals(PcPlus4, ARs1, BImm, ImmSelS, AluAdd, BrNone, false, StSw, LdNone, WbAlu, false, false, CsrN)
    else DecodeArithmetic(w)
  }

  /** The rows from ADDI on. */
  function DecodeArithmetic(w: Word): (r: Signals) {
    if Matches(w, ADDI) then AluRow(ARs1, BImm, ImmSelI, AluAdd)
    else if Matches(w, SLTI) then AluRow(ARs1, BImm, ImmSelI, AluSlt)
    else if Matches(w, SLTIU) then AluRow(ARs1, BImm, ImmSelI, AluSltu)
    else if Matches(w, XORI) then AluRow(ARs1, BImm, ImmSelI, AluXor)
    else if Matches(w, ORI) then AluRow(ARs1, BImm, ImmSelI, AluOr)
    else if Matches(w, ANDI) then AluRow(ARs1, BImm, ImmSelI, AluAnd)
    else if Matches(w, SLLI) then AluRow(ARs1, BImm, ImmSelI, AluSll)
    else if Matches(w, SRLI) then AluRow(ARs1, BImm, ImmSelI, AluSrl)
    else if Matches(w, SRAI) then AluRow(ARs1, BImm, ImmSelI, AluSra)
    else DecodeRegister(w)
  }

  /** The rows from ADD on. */
  function DecodeRegister(w: Word): (r: Signals) {
    if Matches(w, ADD) then AluRow(ARs1, BRs2, ImmX, AluAdd)
    else if Matches(w, SUB) then AluRow(ARs1, BRs2, ImmX, AluSub)
    else if Matches(w, SLL) then AluRow(ARs1, BRs2, ImmX, AluSll)
    else if Matches(w, SLT) then AluRow(ARs1, BRs2, ImmX, AluSlt)
    else if Matches(w, SLTU) then AluRow(ARs1, BRs2, ImmX, AluSltu)
    else if Matches(w, XOR) then AluRow(ARs1, BRs2, ImmX, AluXor)
    else if Matches(w, SRL) then AluRow(ARs1, BRs2, ImmX, AluSrl)
    else if Matches(w, SRA) then AluRow(ARs1, BRs2, ImmX, AluSra)
    else if Matches(w, OR) then AluRow(ARs1, BRs2, ImmX, AluOr)
    else if Matches(w, AND) then AluRow(ARs1, BRs2, ImmX, AluAnd)
    else DecodeSystem(w)
  }

  /** The rows from FENCE on. */
  function DecodeSystem(w: Word): (r: Signals) {
    if Matches(w, FENCE) then
      Signals(PcPlus4, ANone, BNone, ImmX, AluNone, BrNone, false, StNone, LdNone, WbAlu, false, false, CsrN)
    else if Matches(w, FENCEI) then
      Signals(PcPlus4, ANone, BNone, ImmX, AluNone, BrNone, false, StNone, LdNone, WbAlu, false, false, CsrN)
    else if Matches(w, CSRRW) then
      Signals(PcPlus0, ARs1, BNone, ImmX, AluCopyA, BrNone, true, StNone, LdNone, WbCsr, true, false, CsrW)
    else if Matches(w, CSRRS) then
      Signals(PcPlus0, ARs1, BNone, ImmX, AluCopyA, BrNone, true, StNone, LdNone, WbCsr, true, false, CsrS)
    else if Matches(w, CSRRC) then
      Signals(PcPlus0, ARs1, BNone, ImmX, AluCopyA, BrNone, true, StNone, LdNone, WbCsr, true, false, CsrC)
    else if Matches(w, CSRRWI) then
      Signals(PcPlus0, ANone, BNone, ImmSelZ, AluNone, BrNone, true, StNone, LdNone, WbCsr, true, false, CsrW)
    else if Matches(w, CSRRSI) then
      Signals(PcPlus0, ANone, BNone, ImmSelZ, AluNone, BrNone, true, StNone, LdNone, WbCsr, true, false, CsrS)
    else if Matches(w, CSRRCI) then
      Signals(PcPlus0, ANone, BNone, ImmSelZ, AluNone, BrNone, true, StNone, LdNone, WbCsr, true, false, CsrC)
    else if Matches(w, ECALL) then
      Signals(PcPlus0, ANone, BNone, ImmX, AluNone, BrNone, true, StNone, LdNone, WbCsr, false, false, CsrEc)
    else if Matches(w, EBREAK) then
      Signals(PcPlus0, ANone, BNone, ImmX, AluNone, BrNone, true, StNone, LdNone, WbCsr, false, false, CsrEb)
    else if Matches(w, ERET) then
      Signals(PcEpc, ANone, BNone, ImmX, AluNone, BrNone, true, StNone, LdNone, WbCsr, false, false, CsrEr)
    else if Matches(w, WFI) then
      Signals(PcPlus0, ANone, BNone, ImmX, AluNone, BrNone, true, StNone, LdNone, WbAlu, false, false, CsrN)
    else DEFAULT
  }
}
