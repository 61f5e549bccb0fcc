/** The combinational half of the core against the instruction set: the decode table, the
    immediates, the ALU and the branch unit. */
module Datapath {
  import opened Bits
  import opened Control
  import X = Execute
  import R = Rv32i
  import M = Memory

  /* ---- The row each instruction needs ---- */

  function AluOpOf(op: R.Op): AluOp {
    match op
    case Add => AluAdd case Sub => AluSub case Sll => AluSll case Slt => AluSlt case Sltu => AluSltu
    case Xor => AluXor case Srl => AluSrl case Sra => AluSra case Or => AluOr case And => AluAnd
  }

  function BrTypeOf(c: R.Cond): BrType {
    match c
    case Eq => BrEq case Ne => BrNe case Lt => BrLt case Ge => BrGe case Ltu => BrLtu case Geu => BrGeu
  }

  function CsrTypeOf(k: R.CsrOp): CsrType {
    match k case Write => CsrW case Set => CsrS case Clear => CsrC
  }

  function LoadSignals(w: R.Width, unsigned: bool): Signals {
    Signals(PcPlus0, ARs1, BImm, ImmSelI, AluAdd, BrNone, true, StNone, M.LdType(w, unsigned), WbMem, true, false, CsrN)
  }

  function StoreSignals(w: R.Width): Signals {
    Signals(PcPlus4, ARs1, BImm, ImmSelS, AluAdd, BrNone, false, M.StType(w), LdNone, WbAlu, false, false, CsrN)
  }

  function Row(i: R.Instr): Signals {
    match i
    case Lui(_, _) => AluRow(APc, BImm, ImmSelU, AluCopyB)
    case Auipc(_, _) => AluRow(APc, BImm, ImmSelU, AluAdd)
    case Jal(_, _) =>
      Signals(PcAlu, APc, BImm, ImmSelJ, AluAdd, BrNone, true, StNone, LdNone, WbPc4, true, false, CsrN)
    case Jalr(_, _, _) =>
      Signals(PcAlu, ARs1, BImm, ImmSelI, AluAdd, BrNone, true, StNone, LdNone, WbPc4, true, false, CsrN)
    case Branch(c, _, _, _) =>
      Signals(PcPlus4, APc, BImm, ImmSelB, AluAdd, BrTypeOf(c), false, StNone, LdNone, WbAlu, false, false, CsrN)
    case Load(w, u, _, _, _) => LoadSignals(w, u)
    case Store(w, _, _, _) => StoreSignals(w)
    case OpImm(op, _, _, _) => AluRow(ARs1, BImm, ImmSelI, AluOpOf(op))
    case OpReg(op, _, _, _) => AluRow(ARs1, BRs2, ImmX, AluOpOf(op))
    case Fence =>
      Signals(PcPlus4, ANone, BNone, ImmX, AluNone, BrNone, false, StNone, LdNone, WbAlu, false, false, CsrN)
    case Csr(k, _, _, _) =>
      Signals(PcPlus0, ARs1, BNone, ImmX, AluCopyA, BrNone, true, StNone, LdNone, WbCsr, true, false, CsrTypeOf(k))
    case Ecall =>
      Signals(PcPlus0, ANone, BNone, ImmX, AluNone, BrNone, true, StNone, LdNone, WbCsr, false, false, CsrEc)
    case Ebreak =>
      Signals(PcPlus0, ANone, BNone, ImmX, AluNone, BrNone, true, StNone, LdNone, WbCsr, false, false, CsrEb)
    case Mret =>
      Signals(PcEpc, ANone, BNone, ImmX, AluNone, BrNone, true, StNone, LdNone, WbCsr, false, false, CsrEr)
  }

  /* ---- The table agrees with the instruction set's own decoding ---- */

  function OpPattern(op: R.Op): BitPat {
    match op
    case Add => ADD case Sub => SUB case Sll => SLL case Slt => SLT case Sltu => SLTU
    case Xor => XOR case Srl => SRL case Sra => SRA case Or => OR case And => AND
  }

  function OpImmPattern(op: R.Op): BitPat {
    match op
    case Add => ADDI case Sub => SUB case Sll => SLLI case Slt => SLTI case Sltu => SLTIU
    case Xor => XORI case Srl => SRLI case Sra => SRAI case Or => ORI case And => ANDI
  }

  function CondPattern(c: R.Cond): BitPat {
    match c
    case Eq => BEQ case Ne => BNE case Lt => BLT case Ge => BGE case Ltu => BLTU case Geu => BGEU
  }

  function LoadPattern(w: R.Width, unsigned: bool): BitPat {
    match w
    case Byte => if unsigned then LBU else LB
    case Half => if unsigned then LHU else LH
    case Full => LW
  }

  function StorePattern(w: R.Width): BitPat {
    match w case Byte => SB case Half => SH case Full => SW
  }

  function CsrPattern(k: R.CsrOp): BitPat {
    match k case Write => CSRRW case Set => CSRRS case Clear => CSRRC
  }

  function Pattern(i: R.Instr): BitPat {
    match i
    case Lui(_, _) => LUI
    case Auipc(_, _) => AUIPC
    case Jal(_, _) => JAL
    case Jalr(_, _, _) => JALR
    case Branch(c, _, _, _) => CondPattern(c)
    case Load(w, u, _, _, _) => LoadPattern(w, u)
    case Store(w, _, _, _) => StorePattern(w)
    case OpImm(op, _, _, _) => OpImmPattern(op)
    case OpReg(op, _, _, _) => OpPattern(op)
    case Fence => FENCE
    case Csr(k, _, _, _) => CsrPattern(k)
    case Ecall => ECALL
    case Ebreak => EBREAK
    case Mret => ERET
  }

  ghost predicate Decodes(w: Word, i: R.Instr) {
    R.Decode(w) == R.Some(i)
  }

  lemma PatternMatchesUpper(w: Word, i: R.Instr)
    requires Decodes(w, i)
    requires i.Lui? || i.Auipc? || i.Jal? || i.Jalr?
    ensures Matches(w, Pattern(i))
  {
    hide R.DecodeCond, R.DecodeLoad, R.DecodeStore, R.DecodeOpImm, R.DecodeOp, R.DecodeFence, R.DecodeSystem;
  }

  lemma PatternMatchesBranch(w: Word, i: R.Instr)
    requires Decodes(w, i)
    requires i.Branch?
    ensures Matches(w, Pattern(i))
  {
    hide R.DecodeLoad, R.DecodeStore, R.DecodeOpImm, R.DecodeOp, R.DecodeFence, R.DecodeSystem;
  }

  lemma PatternMatchesMemory(w: Word, i: R.Instr)
    requires Decodes(w, i)
    requires i.Load? || i.Store?
    ensures Matches(w, Pattern(i))
  {
    hide R.DecodeCond, R.DecodeOpImm, R.DecodeOp, R.DecodeFence, R.DecodeSystem;
  }

  lemma PatternMatchesOpImm(w: Word, i: R.Instr)
    requires Decodes(w, i)
    requires i.OpImm?
    ensures Matches(w, Pattern(i))
  {
    hide R.DecodeCond, R.DecodeLoad, R.DecodeStore, R.DecodeOp, R.DecodeFence, R.DecodeSystem;
  }

  lemma PatternMatchesOpReg(w: Word, i: R.Instr)
    requires Decodes(w, i)
    requires i.OpReg?
    ensures Matches(w, Pattern(i))
  {
    hide R.DecodeCond, R.DecodeLoad, R.DecodeStore, R.DecodeOpImm, R.DecodeFence, R.DecodeSystem;
  }

  lemma PatternMatchesFence(w: Word, i: R.Instr)
    requires Decodes(w, i)
    requires i.Fence?
    ensures Matches(w, Pattern(i))
  {
    hide R.DecodeCond, R.DecodeLoad, R.DecodeStore, R.DecodeOpImm, R.DecodeOp, R.DecodeSystem;
  }

  lemma PatternMatchesCsr(w: Word, i: R.Instr)
    requires Decodes(w, i)
    requires i.Csr?
    ensures Matches(w, Pattern(i))
  {
    hide R.DecodeCond, R.DecodeLoad, R.DecodeStore, R.DecodeOpImm, R.DecodeOp, R.DecodeFence;
  }

  lemma PatternMatchesTrap(w: Word, i: R.Instr)
    requires Decodes(w, i)
    requires i.Ecall? || i.Ebreak? || i.Mret?
    ensures Matches(w, Pattern(i))
  {
    hide R.DecodeCond, R.DecodeLoad, R.DecodeStore, R.DecodeOpImm, R.DecodeOp, R.DecodeFence;
  }

  lemma MajorOpcode(w: Word, p: BitPat)
    requires Matches(w, p) && p.mask & 0x7f == 0x7f
    ensures w & 0x7f == p.value & 0x7f
  {
    assert (w & p.mask) & 0x7f == w & (p.mask & 0x7f);
  }

  /** Every row above LB, ADDI, ADD and FENCE has a major opcode other than the ones below it. */
  lemma SkipToMemory(w: Word)
    requires w & 0x1f == 0x03 || w & 0x1f == 0x13 || w & 0x7f == 0x0f
    requires w & 0x7f != 0x63
    ensures Decode(w) == DecodeMemory(w)
  {
    hide DecodeMemory;
  }

  lemma SkipToArithmetic(w: Word)
    requires w & 0x1f == 0x13 || w & 0x1f == 0x0f
    ensures DecodeMemory(w) == DecodeArithmetic(w)
  {
    hide DecodeArithmetic;
  }

  lemma TableRowUpper(w: Word, i: R.Instr)
    requires Matches(w, Pattern(i))
    requires i.Lui? || i.Auipc? || i.Jal? || i.Jalr?
    ensures Decode(w) == Row(i)
  {
    hide DecodeMemory;
  }

  lemma TableRowBranch(w: Word, i: R.Instr)
    requires Matches(w, Pattern(i))
    requires i.Branch?
    ensures Decode(w) == Row(i)
  {
    hide DecodeMemory;
  }

  lemma LoadRow(w: Word, width: R.Width, unsigned: bool)
    requires Matches(w, LoadPattern(width, unsigned))
    ensures w & 0x7f == 0x03
    ensures DecodeMemory(w) == LoadSignals(width, unsigned)
  {
    hide DecodeArithmetic;
  }

  lemma StoreRow(w: Word, width: R.Width)
    requires Matches(w, StorePattern(width))
    ensures w & 0x7f == 0x23
    ensures DecodeMemory(w) == StoreSignals(width)
  {
    hide DecodeArithmetic;
  }

  lemma TableRowMemory(w: Word, i: R.Instr)
    requires Matches(w, Pattern(i))
    requires i.Load? || i.Store?
    ensures Decode(w) == Row(i)
  {
    hide Decode, DecodeMemory;
    if i.Load? { LoadRow(w, i.width, i.unsigned); } else { StoreRow(w, i.width); }
    SkipToMemory(w);
  }

  lemma SkipToRegister(w: Word)
    requires w & 0x7f == 0x33 || w & 0x7f == 0x73 || w & 0x7f == 0x0f
    ensures DecodeArithmetic(w) == DecodeRegister(w)
  {
    hide DecodeRegister;
  }

  lemma SkipToSystem(w: Word)
    requires w & 0x7f == 0x73 || w & 0x7f == 0x0f
    ensures DecodeRegister(w) == DecodeSystem(w)
  {
    hide DecodeSystem;
  }

  lemma SlliRow(w: Word)
    requires Matches(w, SLLI)
    ensures DecodeArithmetic(w) == AluRow(ARs1, BImm, ImmSelI, AluSll)
  {
    hide DecodeRegister;
  }

  lemma SrliRow(w: Word)
    requires Matches(w, SRLI)
    ensures DecodeArithmetic(w) == AluRow(ARs1, BImm, ImmSelI, AluSrl)
  {
    hide DecodeRegister;
  }

  lemma SraiRow(w: Word)
    requires Matches(w, SRAI)
    ensures DecodeArithmetic(w) == AluRow(ARs1, BImm, ImmSelI, AluSra)
  {
    hide DecodeRegister;
  }

  lemma PlainRow(w: Word, op: R.Op)
    requires Matches(w, OpImmPattern(op)) && op != R.Sub && op != R.Sll && op != R.Srl && op != R.Sra
    ensures DecodeArithmetic(w) == AluRow(ARs1, BImm, ImmSelI, AluOpOf(op))
  {
    hide DecodeRegister;
  }

  lemma ArithmeticRow(w: Word, op: R.Op)
    requires Matches(w, OpImmPattern(op)) && op != R.Sub
    ensures DecodeArithmetic(w) == AluRow(ARs1, BImm, ImmSelI, AluOpOf(op))
  {
    hide DecodeArithmetic, Matches;
    if op == R.Sll { SlliRow(w); }
    else if op == R.Srl { SrliRow(w); }
    else if op == R.Sra { SraiRow(w); }
    else { PlainRow(w, op); }
  }

  lemma OpImmOpcode(w: Word, op: R.Op)
    requires Matches(w, OpImmPattern(op)) && op != R.Sub
    ensures w & 0x1f == 0x13 && w & 0x7f != 0x63
  {
    hide Matches;
    MajorOpcode(w, OpImmPattern(op));
    LowOpcode(w);
  }

  lemma LowOpcode(w: Word)
    requires w & 0x7f == 0x13
    ensures w & 0x1f == 0x13 && w & 0x7f != 0x63
  {
  }

  lemma TableRowOpImm(w: Word, i: R.Instr)
    requires Matches(w, Pattern(i))
    requires i.OpImm? && i.op != R.Sub
    ensures Decode(w) == Row(i)
  {
    hide Decode, DecodeMemory, DecodeArithmetic, Matches, OpImmPattern;
    ArithmeticRow(w, i.op);
    OpImmOpcode(w, i.op);
    SkipToMemory(w);
    SkipToArithmetic(w);
  }

  lemma RegisterRow(w: Word, op: R.Op)
    requires Matches(w, OpPattern(op))
    ensures DecodeRegister(w) == AluRow(ARs1, BRs2, ImmX, AluOpOf(op))
  {
    hide DecodeSystem;
  }

  lemma SystemRow(w: Word, i: R.Instr)
    requires Matches(w, Pattern(i))
    requires i.Fence? || i.Csr? || i.Ecall? || i.Ebreak? || i.Mret?
    ensures w & 0x7f == 0x73 || w & 0x7f == 0x0f
    ensures DecodeSystem(w) == Row(i)
  {
    hide DecodeSystem, Matches, Pattern, Row;
    match i
    case Fence => FenceRow(w);
    case Csr(kind, rd, rs1, csr) => CsrRow(w, i);
    case Ecall => EcallRow(w);
    case Ebreak => EbreakRow(w);
    case _ => MretRow(w);
  }

  lemma FenceRow(w: Word)
    requires Matches(w, Pattern(R.Fence))
    ensures w & 0x7f == 0x0f && DecodeSystem(w) == Row(R.Fence)
  {
  }

  lemma CsrRow(w: Word, i: R.Instr)
    requires Matches(w, Pattern(i)) && i.Csr?
    ensures w & 0x7f == 0x73 && DecodeSystem(w) == Row(i)
  {
  }

  lemma EcallRow(w: Word)
    requires Matches(w, Pattern(R.Ecall))
    ensures w & 0x7f == 0x73 && DecodeSystem(w) == Row(R.Ecall)
  {
  }

  lemma EbreakRow(w: Word)
    requires Matches(w, Pattern(R.Ebreak))
    ensures w & 0x7f == 0x73 && DecodeSystem(w) == Row(R.Ebreak)
  {
  }

  lemma MretRow(w: Word)
    requires Matches(w, Pattern(R.Mret))
    ensures w & 0x7f == 0x73 && DecodeSystem(w) == Row(R.Mret)
  {
  }

  lemma TableRowOpReg(w: Word, i: R.Instr)
    requires Matches(w, Pattern(i))
    requires i.OpReg?
    ensures Decode(w) == Row(i)
  {
    hide Decode, DecodeMemory, DecodeArithmetic, DecodeRegister;
    RegisterRow(w, i.op);
    assert w & 0x7f == 0x33 by { MajorOpcode(w, Pattern(i)); }
    SkipToMemory(w);
    SkipToArithmetic(w);
    SkipToRegister(w);
  }

  lemma TableRowSystem(w: Word, i: R.Instr)
    requires Matches(w, Pattern(i))
    requires i.Fence? || i.Csr? || i.Ecall? || i.Ebreak? || i.Mret?
    ensures Decode(w) == Row(i)
  {
    hide Decode, DecodeMemory, DecodeArithmetic, DecodeRegister, DecodeSystem;
    SystemRow(w, i);
    SkipToMemory(w);
    SkipToArithmetic(w);
    SkipToRegister(w);
    SkipToSystem(w);
  }


  lemma NoSubtractImmediate(w: Word, i: R.Instr)
    requires Decodes(w, i) && i.OpImm?
    ensures i.op != R.Sub
  {
  }

  /** The control row an instruction word selects is the one its instruction needs. */
  lemma ControlAgrees(w: Word, i: R.Instr)
    requires Decodes(w, i)
    ensures Decode(w) == Row(i)
  {
    hide R.Decode, Decode, Matches, Row, Pattern;
    match i
    case Branch(_, _, _, _) => PatternMatchesBranch(w, i); TableRowBranch(w, i);
    case Load(_, _, _, _, _) => PatternMatchesMemory(w, i); TableRowMemory(w, i);
    case Store(_, _, _, _) => PatternMatchesMemory(w, i); TableRowMemory(w, i);
    case OpImm(_, _, _, _) => PatternMatchesOpImm(w, i); NoSubtractImmediate(w, i); TableRowOpImm(w, i);
    case OpReg(_, _, _, _) => PatternMatchesOpReg(w, i); TableRowOpReg(w, i);
    case Fence => PatternMatchesFence(w, i); TableRowSystem(w, i);
    case Csr(_, _, _, _) => PatternMatchesCsr(w, i); TableRowSystem(w, i);
    case Ecall => PatternMatchesTrap(w, i); TableRowSystem(w, i);
    case Ebreak => PatternMatchesTrap(w, i); TableRowSystem(w, i);
    case Mret => PatternMatchesTrap(w, i); TableRowSystem(w, i);
    case _ => PatternMatchesUpper(w, i); TableRowUpper(w, i);
  }

  lemma NopRow()
    ensures Decode(NOP) == AluRow(ARs1, BImm, ImmSelI, AluAdd)
    ensures X.FieldsOf(NOP).rd == 0
  {
  }

  /* ---- Fields and immediates ---- */

  lemma FieldsAgree(w: Word)
    ensures X.FieldsOf(w) == X.Fields(R.Rs1(w), R.Rs2(w), R.Rd(w), R.CsrField(w))
  {
  }

  lemma ImmediateI(w: Word)
    ensures X.Immediate(ImmSelI, w) == R.ImmI(w)
  {
  }

  lemma ImmediateS(w: Word)
    ensures X.Immediate(ImmSelS, w) == R.ImmS(w)
  {
  }

  lemma FieldBNegative(w: Word)
    requires Negative(w)
    ensures X.FieldB(w) == 0x1000 | R.BitsB(w)
  {
  }

  lemma FieldBPositive(w: Word)
    requires !Negative(w)
    ensures X.FieldB(w) == R.BitsB(w)
  {
  }

  lemma FieldJNegative(w: Word)
    requires Negative(w)
    ensures X.FieldJ(w) == 0x10_0000 | R.BitsJ(w)
  {
  }

  lemma FieldJPositive(w: Word)
    requires !Negative(w)
    ensures X.FieldJ(w) == R.BitsJ(w)
  {
  }

  lemma NegativeB(w: Word)
    ensures SignExtend(0x1000 | R.BitsB(w), 0x1000) == 0xffff_f000 | R.BitsB(w)
  {
    hide R.BitsB;
  }

  lemma PositiveB(w: Word)
    ensures SignExtend(R.BitsB(w), 0x1000) == R.BitsB(w)
  {
  }

  lemma NegativeJ(w: Word)
    ensures SignExtend(0x10_0000 | R.BitsJ(w), 0x10_0000) == 0xfff0_0000 | R.BitsJ(w)
  {
    hide R.BitsJ;
  }

  lemma PositiveJ(w: Word)
    ensures SignExtend(R.BitsJ(w), 0x10_0000) == R.BitsJ(w)
  {
  }

  lemma ZeroOr(x: Word)
    ensures 0 | x == x
  {
  }

  lemma ImmediateB(w: Word)
    ensures X.Immediate(ImmSelB, w) == R.ImmB(w)
  {
    hide X.FieldB, R.BitsB, SignExtend, Negative;
    if Negative(w) {
      FieldBNegative(w);
      NegativeB(w);
    } else {
      FieldBPositive(w);
      PositiveB(w);
      ZeroOr(R.BitsB(w));
    }
  }

  lemma ImmediateJ(w: Word)
    ensures X.Immediate(ImmSelJ, w) == R.ImmJ(w)
  {
    hide X.FieldJ, R.BitsJ, SignExtend, Negative;
    if Negative(w) {
      FieldJNegative(w);
      NegativeJ(w);
    } else {
      FieldJPositive(w);
      PositiveJ(w);
      ZeroOr(R.BitsJ(w));
    }
  }

  lemma ImmediateU(w: Word)
    ensures X.Immediate(ImmSelU, w) == R.ImmU(w)
  {
  }

  /** The operands of an instruction are the fields of its word. */
  ghost predicate Operands(w: Word, i: R.Instr) {
    match i
    case Lui(rd, imm) => rd == R.Rd(w) && imm == R.ImmU(w)
    case Auipc(rd, imm) => rd == R.Rd(w) && imm == R.ImmU(w)
    case Jal(rd, imm) => rd == R.Rd(w) && imm == R.ImmJ(w)
    case Jalr(rd, rs1, imm) => rd == R.Rd(w) && rs1 == R.Rs1(w) && imm == R.ImmI(w)
    case Branch(_, rs1, rs2, imm) => rs1 == R.Rs1(w) && rs2 == R.Rs2(w) && imm == R.ImmB(w)
    case Load(_, _, rd, rs1, imm) => rd == R.Rd(w) && rs1 == R.Rs1(w) && imm == R.ImmI(w)
    case Store(_, rs1, rs2, imm) => rs1 == R.Rs1(w) && rs2 == R.Rs2(w) && imm == R.ImmS(w)
    case OpImm(op, rd, rs1, imm) => rd == R.Rd(w) && rs1 == R.Rs1(w) && imm == R.ImmI(w)
    case OpReg(op, rd, rs1, rs2) => rd == R.Rd(w) && rs1 == R.Rs1(w) && rs2 == R.Rs2(w)
    case Csr(_, rd, rs1, csr) => rd == R.Rd(w) && rs1 == R.Rs1(w) && csr == R.CsrField(w)
    case _ => true
  }

  lemma OperandsAreFields(w: Word, i: R.Instr)
    requires Decodes(w, i)
    ensures Operands(w, i)
  {
    hide R.Rd, R.Rs1, R.Rs2, R.ImmI, R.ImmS, R.ImmB, R.ImmU, R.ImmJ, R.CsrField;
  }

  /** The immediate of the CSR immediate forms is their rs1 field. */
  lemma ImmediateZ(w: Word)
    ensures X.Immediate(ImmSelZ, w) == w / 0x8000 % 32
  {
  }

  /* ---- ALU and branch unit ---- */

  lemma SignedOrder(a: Word, b: Word)
    ensures X.LessSigned(a, b) <==> R.SignedLess(a, b)
  {
  }

  /** The ALU operation by operation. */
  lemma AluAgrees(op: R.Op, a: Word, b: Word)
    ensures X.Alu(AluOpOf(op), a, b) == R.Compute(op, a, b)
  {
    hide X.Alu, R.Compute;
    match op
    case Add => AluAdds(a, b);
    case Sub => AluSubtracts(a, b);
    case Slt => AluCompares(a, b);
    case Sltu => AluCompares(a, b);
    case Sll => AluShifts(a, b);
    case Srl => AluShifts(a, b);
    case Sra => AluShifts(a, b);
    case _ => AluCombines(a, b);
  }

  lemma AluAdds(a: Word, b: Word)
    ensures X.Alu(AluAdd, a, b) == R.Compute(R.Add, a, b)
  {
    hide Plus;
    PlusIs(a, b);
  }

  lemma AluSubtracts(a: Word, b: Word)
    ensures X.Alu(AluSub, a, b) == R.Compute(R.Sub, a, b)
  {
    Negated(a, b);
  }

  lemma AluCompares(a: Word, b: Word)
    ensures X.Alu(AluSlt, a, b) == R.Compute(R.Slt, a, b) && X.Alu(AluSltu, a, b) == R.Compute(R.Sltu, a, b)
  {
    hide X.LessSigned, R.SignedLess, BoolWord;
    SignedOrder(a, b);
  }

  lemma AluShifts(a: Word, b: Word)
    ensures X.Alu(AluSll, a, b) == R.Compute(R.Sll, a, b) && X.Alu(AluSrl, a, b) == R.Compute(R.Srl, a, b)
    ensures X.Alu(AluSra, a, b) == R.Compute(R.Sra, a, b)
  {
    hide ShiftRightArithmetic, ShiftAmount;
  }

  lemma AluCombines(a: Word, b: Word)
    ensures X.Alu(AluXor, a, b) == R.Compute(R.Xor, a, b) && X.Alu(AluOr, a, b) == R.Compute(R.Or, a, b)
    ensures X.Alu(AluAnd, a, b) == R.Compute(R.And, a, b)
  {
  }

  lemma PlusIs(a: Word, b: Word)
    ensures Plus(a, b) == a + b
  {
  }

  lemma Negated(a: Word, b: Word)
    ensures a + (0 - b) == a - b
  {
  }

  /** SRA and SRAI move every bit down by the low five bits of the second operand and fill with the sign. */
  lemma SraAt(a: Word, b: Word, k: bv5)
    ensures Bit(X.Alu(AluSra, a, b), k) <==> Bit(a, if k <= 31 - (b % 32) as bv5 then k + (b % 32) as bv5 else 31)
    ensures R.Compute(R.Sra, a, b) == X.Alu(AluSra, a, b)
  {
    hide Bit, ShiftAmount, ShiftRightArithmetic;
    AluAgrees(R.Sra, a, b);
    ShiftAmountIs(b);
    ShiftRightArithmeticAt(a, ShiftAmount(b), k);
  }

  lemma BranchAgrees(c: R.Cond, a: Word, b: Word)
    ensures X.Taken(BrTypeOf(c), a, b) <==> R.Holds(c, a, b)
  {
    SignedOrder(a, b);
    hide X.LessSigned, R.SignedLess;
  }

  /* ---- The execute stage, one instruction at a time ---- */

  /** The ALU result each instruction asks for, in the instruction set's terms: a value for rd, a
      target or an effective address. */
  function AluResult(i: R.Instr, pc: Word, v1: Word, v2: Word): (r: Word)
    requires !(i.Fence? || i.Csr? || i.Ecall? || i.Ebreak? || i.Mret?)
  {
    match i
    case Lui(_, imm) => imm
    case Auipc(_, imm) => Plus(pc, imm)
    case Jal(_, imm) => Plus(pc, imm)
    case Jalr(_, _, imm) => Plus(v1, imm)
    case Branch(_, _, _, imm) => Plus(pc, imm)
    case Load(_, _, _, _, imm) => Plus(v1, imm)
    case Store(_, _, _, imm) => Plus(v1, imm)
    case OpImm(op, _, _, imm) => R.Compute(op, v1, imm)
    case OpReg(op, _, _, _) => R.Compute(op, v1, v2)
  }

  predicate Computes(i: R.Instr) {
    !(i.Fence? || i.Csr? || i.Ecall? || i.Ebreak? || i.Mret?)
  }

  lemma ImmediateAgrees(w: Word, i: R.Instr)
    requires Decodes(w, i)
    requires Computes(i) && !i.OpReg?
    ensures X.Immediate(Row(i).immSel, w) == i.imm
  {
    hide R.Decode, X.Immediate, R.ImmI, R.ImmS, R.ImmB, R.ImmU, R.ImmJ, R.Rd, R.Rs1, R.Rs2;
    OperandsAreFields(w, i);
    match i
    case Branch(_, _, _, _) => ImmediateB(w);
    case Jal(_, _) => ImmediateJ(w);
    case Store(_, _, _, _) => ImmediateS(w);
    case Lui(_, _) => ImmediateU(w);
    case Auipc(_, _) => ImmediateU(w);
    case _ => ImmediateI(w);
  }

  /** The operands the row selects reach the ALU with the row's operation. */
  lemma ResultIsAlu(w: Word, i: R.Instr, pc: Word, v1: Word, v2: Word)
    requires Decodes(w, i) && Computes(i)
    ensures X.Perform(Row(i), w, pc, v1, v2).aluOut
            == X.Alu(Row(i).aluOp, if Row(i).aSel == ARs1 then v1 else pc, if i.OpReg? then v2 else i.imm)
  {
    hide R.Decode, X.Immediate, X.Taken, X.StoreLanes, X.ByteEnables, WordAddress, X.Alu;
    if !i.OpReg? { ImmediateAgrees(w, i); }
  }

  lemma ResultAgrees(w: Word, i: R.Instr, pc: Word, v1: Word, v2: Word)
    requires Decodes(w, i) && Computes(i)
    ensures X.Perform(Row(i), w, pc, v1, v2).aluOut == AluResult(i, pc, v1, v2)
  {
    hide R.Decode, R.Compute, X.Alu, X.Perform, Plus;
    ResultIsAlu(w, i, pc, v1, v2);
    match i
    case OpReg(op, _, _, _) => AluAgrees(op, v1, v2);
    case OpImm(op, _, _, imm) => AluAgrees(op, v1, imm);
    case Lui(_, imm) => AluPlain(pc, imm);
    case Auipc(_, imm) => AluPlain(pc, imm);
    case Jal(_, imm) => AluPlain(pc, imm);
    case Branch(_, _, _, imm) => AluPlain(pc, imm);
    case Jalr(_, _, imm) => AluPlain(v1, imm);
    case Load(_, _, _, _, imm) => AluPlain(v1, imm);
    case Store(_, _, _, imm) => AluPlain(v1, imm);
  }

  lemma AluPlain(a: Word, b: Word)
    ensures X.Alu(AluAdd, a, b) == Plus(a, b) && X.Alu(AluCopyB, a, b) == b
  {
  }

  lemma TakenAgrees(w: Word, i: R.Instr, pc: Word, v1: Word, v2: Word)
    ensures X.Perform(Row(i), w, pc, v1, v2).taken <==> i.Branch? && R.Holds(i.cond, v1, v2)
  {
    hide X.Immediate, X.Alu, X.StoreLanes, X.ByteEnables, R.Holds, X.LessSigned, WordAddress;
    if i.Branch? { BranchAgrees(i.cond, v1, v2); }
  }

  /** Only loads and stores reach the data port, and what they ask of it. */
  lemma RequestAgrees(w: Word, i: R.Instr, pc: Word, v1: Word, v2: Word)
    ensures var x := X.Perform(Row(i), w, pc, v1, v2);
            (x.req <==> i.Load? || i.Store?) && (x.we <==> i.Store?) && x.addr == WordAddress(x.aluOut)
            && x.rs1r == v1 && x.wdata == X.StoreLanes(v2, x.aluOut)
            && (i.Store? ==> x.be == X.ByteEnables(M.StType(i.width), x.aluOut))
  {
    hide X.Immediate, X.Alu, X.StoreLanes, X.ByteEnables, X.Taken, WordAddress;
  }
}
