/** The instruction formats written the other way round: every instruction of the reference has a word that
    decodes to it. */
module Encoding {
  import opened Bits
  import opened Rv32i

  /** The six fields of a word, from the top down: funct7, rs2, rs1, funct3, rd, opcode. */
  function Word32(f7: bv7, rs2: bv5, rs1: bv5, f3: bv3, rd: bv5, opcode: bv7): Word {
    ((f7 as Word) << 25) | ((rs2 as Word) << 20) | ((rs1 as Word) << 15) | ((f3 as Word) << 12) | ((rd as Word) << 7)
    | (opcode as Word)
  }

  function Reg(r: RegIndex): bv5 {
    r as bv5
  }

  lemma RegBack(r: RegIndex)
    ensures RegIndexOf(Reg(r)) == r
  {
  }

  lemma OpcodeBack(f7: bv7, rs2: bv5, rs1: bv5, f3: bv3, rd: bv5, opcode: bv7)
    ensures (Word32(f7, rs2, rs1, f3, rd, opcode) & 0x7f) as bv7 == opcode
  {
  }

  lemma RdBack(f7: bv7, rs2: bv5, rs1: bv5, f3: bv3, rd: bv5, opcode: bv7)
    ensures ((Word32(f7, rs2, rs1, f3, rd, opcode) >> 7) & 0x1f) as bv5 == rd
  {
  }

  lemma Funct3Back(f7: bv7, rs2: bv5, rs1: bv5, f3: bv3, rd: bv5, opcode: bv7)
    ensures Funct3(Word32(f7, rs2, rs1, f3, rd, opcode)) == f3
  {
  }

  lemma Rs1Back(f7: bv7, rs2: bv5, rs1: bv5, f3: bv3, rd: bv5, opcode: bv7)
    ensures ((Word32(f7, rs2, rs1, f3, rd, opcode) >> 15) & 0x1f) as bv5 == rs1
  {
  }

  lemma Rs2Back(f7: bv7, rs2: bv5, rs1: bv5, f3: bv3, rd: bv5, opcode: bv7)
    ensures ((Word32(f7, rs2, rs1, f3, rd, opcode) >> 20) & 0x1f) as bv5 == rs2
  {
  }

  lemma Funct7Back(f7: bv7, rs2: bv5, rs1: bv5, f3: bv3, rd: bv5, opcode: bv7)
    ensures Funct7(Word32(f7, rs2, rs1, f3, rd, opcode)) == f7
  {
  }

  lemma FieldsBack(f7: bv7, rs2: bv5, rs1: bv5, f3: bv3, rd: bv5, opcode: bv7)
    ensures var w := Word32(f7, rs2, rs1, f3, rd, opcode);
            (w & 0x7f) as bv7 == opcode && Rd(w) == RegIndexOf(rd) && Funct3(w) == f3
            && Rs1(w) == RegIndexOf(rs1) && Rs2(w) == RegIndexOf(rs2) && Funct7(w) == f7
  {
    hide Word32, RegIndexOf, Funct3, Funct7;
    OpcodeBack(f7, rs2, rs1, f3, rd, opcode);
    RdBack(f7, rs2, rs1, f3, rd, opcode);
    Funct3Back(f7, rs2, rs1, f3, rd, opcode);
    Rs1Back(f7, rs2, rs1, f3, rd, opcode);
    Rs2Back(f7, rs2, rs1, f3, rd, opcode);
    Funct7Back(f7, rs2, rs1, f3, rd, opcode);
  }

  /* ---- Immediates ---- */

  /** A signed number from -half up to half. */
  predicate Fits(imm: Word, half: Word) {
    imm < half || imm >= 0 - half
  }

  function WordI(imm: Word, rs1: bv5, f3: bv3, rd: bv5, opcode: bv7): Word {
    Word32(((imm >> 5) & 0x7f) as bv7, (imm & 0x1f) as bv5, rs1, f3, rd, opcode)
  }

  function WordS(imm: Word, rs2: bv5, rs1: bv5, f3: bv3, opcode: bv7): Word {
    Word32(((imm >> 5) & 0x7f) as bv7, rs2, rs1, f3, (imm & 0x1f) as bv5, opcode)
  }

  function WordB(imm: Word, rs2: bv5, rs1: bv5, f3: bv3, opcode: bv7): Word {
    Word32((((imm >> 6) & 0x40) | ((imm >> 5) & 0x3f)) as bv7, rs2, rs1, f3,
           ((imm & 0x1e) | ((imm >> 11) & 1)) as bv5, opcode)
  }

  function WordU(imm: Word, rd: bv5, opcode: bv7): Word {
    Word32((imm >> 25) as bv7, ((imm >> 20) & 0x1f) as bv5, ((imm >> 15) & 0x1f) as bv5, ((imm >> 12) & 7) as bv3, rd,
           opcode)
  }

  function WordJ(imm: Word, rd: bv5, opcode: bv7): Word {
    Word32((((imm >> 14) & 0x40) | ((imm >> 5) & 0x3f)) as bv7, ((imm & 0x1e) | ((imm >> 11) & 1)) as bv5,
           ((imm >> 15) & 0x1f) as bv5, ((imm >> 12) & 7) as bv3, rd, opcode)
  }

  lemma ImmIBack(imm: Word, rs1: bv5, f3: bv3, rd: bv5, opcode: bv7)
    requires Fits(imm, 0x800)
    ensures ImmI(WordI(imm, rs1, f3, rd, opcode)) == imm
  {
    hide WordI, ImmI;
    if imm < 0x800 { ForwardI(imm, rs1, f3, rd, opcode); } else { BackwardI(imm, rs1, f3, rd, opcode); }
  }

  lemma ForwardI(imm: Word, rs1: bv5, f3: bv3, rd: bv5, opcode: bv7)
    requires imm < 0x800
    ensures ImmI(WordI(imm, rs1, f3, rd, opcode)) == imm
  {
    assert !Negative(WordI(imm, rs1, f3, rd, opcode));
  }

  lemma BackwardI(imm: Word, rs1: bv5, f3: bv3, rd: bv5, opcode: bv7)
    requires imm >= 0xffff_f800
    ensures ImmI(WordI(imm, rs1, f3, rd, opcode)) == imm
  {
    assert Negative(WordI(imm, rs1, f3, rd, opcode));
  }

  lemma ImmSBack(imm: Word, rs2: bv5, rs1: bv5, f3: bv3, opcode: bv7)
    requires Fits(imm, 0x800)
    ensures ImmS(WordS(imm, rs2, rs1, f3, opcode)) == imm
  {
    hide WordS, ImmS;
    if imm < 0x800 { ForwardS(imm, rs2, rs1, f3, opcode); } else { BackwardS(imm, rs2, rs1, f3, opcode); }
  }

  lemma ForwardS(imm: Word, rs2: bv5, rs1: bv5, f3: bv3, opcode: bv7)
    requires imm < 0x800
    ensures ImmS(WordS(imm, rs2, rs1, f3, opcode)) == imm
  {
    assert !Negative(WordS(imm, rs2, rs1, f3, opcode));
  }

  lemma BackwardS(imm: Word, rs2: bv5, rs1: bv5, f3: bv3, opcode: bv7)
    requires imm >= 0xffff_f800
    ensures ImmS(WordS(imm, rs2, rs1, f3, opcode)) == imm
  {
    assert Negative(WordS(imm, rs2, rs1, f3, opcode));
  }

  lemma ImmUBack(imm: Word, rd: bv5, opcode: bv7)
    requires imm % 0x1000 == 0
    ensures ImmU(WordU(imm, rd, opcode)) == imm
  {
  }

  lemma ImmBBack(imm: Word, rs2: bv5, rs1: bv5, f3: bv3, opcode: bv7)
    requires Fits(imm, 0x1000) && imm % 2 == 0
    ensures ImmB(WordB(imm, rs2, rs1, f3, opcode)) == imm
  {
    hide WordB, ImmB;
    if imm < 0x1000 { ForwardB(imm, rs2, rs1, f3, opcode); } else { BackwardB(imm, rs2, rs1, f3, opcode); }
  }

  lemma ForwardB(imm: Word, rs2: bv5, rs1: bv5, f3: bv3, opcode: bv7)
    requires imm < 0x1000 && imm % 2 == 0
    ensures ImmB(WordB(imm, rs2, rs1, f3, opcode)) == imm
  {
    assert !Negative(WordB(imm, rs2, rs1, f3, opcode));
  }

  lemma BackwardB(imm: Word, rs2: bv5, rs1: bv5, f3: bv3, opcode: bv7)
    requires imm >= 0xffff_f000 && imm % 2 == 0
    ensures ImmB(WordB(imm, rs2, rs1, f3, opcode)) == imm
  {
    assert Negative(WordB(imm, rs2, rs1, f3, opcode));
  }

  lemma ImmJBack(imm: Word, rd: bv5, opcode: bv7)
    requires Fits(imm, 0x10_0000) && imm % 2 == 0
    ensures ImmJ(WordJ(imm, rd, opcode)) == imm
  {
    hide WordJ, ImmJ;
    if imm < 0x10_0000 { ForwardJ(imm, rd, opcode); } else { BackwardJ(imm, rd, opcode); }
  }

  lemma ForwardJ(imm: Word, rd: bv5, opcode: bv7)
    requires imm < 0x10_0000 && imm % 2 == 0
    ensures ImmJ(WordJ(imm, rd, opcode)) == imm
  {
    assert !Negative(WordJ(imm, rd, opcode));
  }

  lemma BackwardJ(imm: Word, rd: bv5, opcode: bv7)
    requires imm >= 0xfff0_0000 && imm % 2 == 0
    ensures ImmJ(WordJ(imm, rd, opcode)) == imm
  {
    assert Negative(WordJ(imm, rd, opcode));
  }

  /* ---- Every instruction ---- */

  function OpFunct3(op: Op): bv3 {
    match op
    case Add => 0 case Sub => 0 case Sll => 1 case Slt => 2 case Sltu => 3
    case Xor => 4 case Srl => 5 case Sra => 5 case Or => 6 case And => 7
  }

  function CondFunct3(c: Cond): bv3 {
    match c case Eq => 0 case Ne => 1 case Lt => 4 case Ge => 5 case Ltu => 6 case Geu => 7
  }

  function WidthFunct3(w: Width): bv3 {
    match w case Byte => 0 case Half => 1 case Full => 2
  }

  function LoadFunct3(w: Width, unsigned: bool): bv3 {
    if unsigned then 4 + WidthFunct3(w) else WidthFunct3(w)
  }

  function KindFunct3(k: CsrOp): bv3 {
    match k case Write => 1 case Set => 2 case Clear => 3
  }

  /** What a word has room for: the ranges of the immediates, no SUBI, and no unsigned load of a word. The
      immediate of SRAI carries its bit 30 along. */
  predicate Encodable(i: Instr) {
    match i
    case Lui(_, imm) => imm % 0x1000 == 0
    case Auipc(_, imm) => imm % 0x1000 == 0
    case Jal(_, imm) => Fits(imm, 0x10_0000) && imm % 2 == 0
    case Jalr(_, _, imm) => Fits(imm, 0x800)
    case Branch(_, _, _, imm) => Fits(imm, 0x1000) && imm % 2 == 0
    case Load(width, unsigned, _, _, imm) => Fits(imm, 0x800) && !(unsigned && width.Full?)
    case Store(_, _, _, imm) => Fits(imm, 0x800)
    case OpImm(op, _, _, imm) =>
      if op.Sll? || op.Srl? then imm < 32
      else if op.Sra? then 0x400 <= imm < 0x420
      else !op.Sub? && Fits(imm, 0x800)
    case _ => true
  }

  function Encode(i: Instr): Word
    requires Encodable(i)
  {
    match i
    case Lui(rd, imm) => WordU(imm, Reg(rd), 0x37)
    case Auipc(rd, imm) => WordU(imm, Reg(rd), 0x17)
    case Jal(rd, imm) => WordJ(imm, Reg(rd), 0x6f)
    case Jalr(rd, rs1, imm) => WordI(imm, Reg(rs1), 0, Reg(rd), 0x67)
    case Branch(cond, rs1, rs2, imm) => WordB(imm, Reg(rs2), Reg(rs1), CondFunct3(cond), 0x63)
    case Load(width, unsigned, rd, rs1, imm) =>
      WordI(imm, Reg(rs1), LoadFunct3(width, unsigned), Reg(rd), 0x03)
    case Store(width, rs1, rs2, imm) => WordS(imm, Reg(rs2), Reg(rs1), WidthFunct3(width), 0x23)
    case OpImm(op, rd, rs1, imm) => WordI(imm, Reg(rs1), OpFunct3(op), Reg(rd), 0x13)
    case OpReg(op, rd, rs1, rs2) =>
      Word32(if op.Sub? || op.Sra? then 0x20 else 0, Reg(rs2), Reg(rs1), OpFunct3(op), Reg(rd), 0x33)
    case Fence => 0x0ff0_000f
    case Csr(kind, rd, rs1, csr) => WordI(csr as Word, Reg(rs1), KindFunct3(kind), Reg(rd), 0x73)
    case Ecall => 0x0000_0073
    case Ebreak => 0x0010_0073
    case Mret => 0x3020_0073
  }

  lemma WordIBack(imm: Word, rs1: RegIndex, f3: bv3, rd: RegIndex, opcode: bv7)
    ensures var w := WordI(imm, Reg(rs1), f3, Reg(rd), opcode);
            (w & 0x7f) as bv7 == opcode && Rd(w) == rd && Rs1(w) == rs1 && Funct3(w) == f3
            && Funct7(w) == ((imm >> 5) & 0x7f) as bv7
    ensures Fits(imm, 0x800) ==> ImmI(WordI(imm, Reg(rs1), f3, Reg(rd), opcode)) == imm
  {
    hide Word32, RegIndexOf, Reg, ImmI, Funct3, Funct7, Rd, Rs1, Rs2, Fits;
    FieldsBack(((imm >> 5) & 0x7f) as bv7, (imm & 0x1f) as bv5, Reg(rs1), f3, Reg(rd), opcode);
    RegBack(rs1);
    RegBack(rd);
    if Fits(imm, 0x800) { ImmIBack(imm, Reg(rs1), f3, Reg(rd), opcode); }
  }

  lemma WordSBack(imm: Word, rs2: RegIndex, rs1: RegIndex, f3: bv3, opcode: bv7)
    requires Fits(imm, 0x800)
    ensures var w := WordS(imm, Reg(rs2), Reg(rs1), f3, opcode);
            (w & 0x7f) as bv7 == opcode && Rs2(w) == rs2 && Rs1(w) == rs1 && Funct3(w) == f3 && ImmS(w) == imm
  {
    hide Word32, RegIndexOf, Reg, ImmS, Funct3, Funct7, Rd, Rs1, Rs2, Fits;
    FieldsBack(((imm >> 5) & 0x7f) as bv7, Reg(rs2), Reg(rs1), f3, (imm & 0x1f) as bv5, opcode);
    RegBack(rs1);
    RegBack(rs2);
    ImmSBack(imm, Reg(rs2), Reg(rs1), f3, opcode);
  }

  lemma WordBBack(imm: Word, rs2: RegIndex, rs1: RegIndex, f3: bv3, opcode: bv7)
    requires Fits(imm, 0x1000) && imm % 2 == 0
    ensures var w := WordB(imm, Reg(rs2), Reg(rs1), f3, opcode);
            (w & 0x7f) as bv7 == opcode && Rs2(w) == rs2 && Rs1(w) == rs1 && Funct3(w) == f3 && ImmB(w) == imm
  {
    hide Word32, RegIndexOf, Reg, ImmB, Funct3, Funct7, Rd, Rs1, Rs2, Fits;
    FieldsBack((((imm >> 6) & 0x40) | ((imm >> 5) & 0x3f)) as bv7, Reg(rs2), Reg(rs1), f3,
               ((imm & 0x1e) | ((imm >> 11) & 1)) as bv5, opcode);
    RegBack(rs1);
    RegBack(rs2);
    ImmBBack(imm, Reg(rs2), Reg(rs1), f3, opcode);
  }

  lemma WordUBack(imm: Word, rd: RegIndex, opcode: bv7)
    requires imm % 0x1000 == 0
    ensures var w := WordU(imm, Reg(rd), opcode);
            (w & 0x7f) as bv7 == opcode && Rd(w) == rd && ImmU(w) == imm
  {
    hide Word32, RegIndexOf, Reg, ImmU, Funct3, Funct7, Rd, Rs1, Rs2;
    FieldsBack((imm >> 25) as bv7, ((imm >> 20) & 0x1f) as bv5, ((imm >> 15) & 0x1f) as bv5,
               ((imm >> 12) & 7) as bv3, Reg(rd), opcode);
    RegBack(rd);
    ImmUBack(imm, Reg(rd), opcode);
  }

  lemma WordJBack(imm: Word, rd: RegIndex, opcode: bv7)
    requires Fits(imm, 0x10_0000) && imm % 2 == 0
    ensures var w := WordJ(imm, Reg(rd), opcode);
            (w & 0x7f) as bv7 == opcode && Rd(w) == rd && ImmJ(w) == imm
  {
    hide Word32, RegIndexOf, Reg, ImmJ, Funct3, Funct7, Rd, Rs1, Rs2, Fits;
    FieldsBack((((imm >> 14) & 0x40) | ((imm >> 5) & 0x3f)) as bv7, ((imm & 0x1e) | ((imm >> 11) & 1)) as bv5,
               ((imm >> 15) & 0x1f) as bv5, ((imm >> 12) & 7) as bv3, Reg(rd), opcode);
    RegBack(rd);
    ImmJBack(imm, Reg(rd), opcode);
  }

  lemma CsrBack(csr: bv12, rs1: bv5, f3: bv3, rd: bv5, opcode: bv7)
    ensures CsrField(WordI(csr as Word, rs1, f3, rd, opcode)) == csr
  {
  }

  /** The shift amounts of SLLI, SRLI and SRAI. */
  lemma ShiftsFit(imm: Word)
    ensures imm < 32 ==> Fits(imm, 0x800) && ((imm >> 5) & 0x7f) as bv7 == 0
    ensures 0x400 <= imm < 0x420 ==> Fits(imm, 0x800) && ((imm >> 5) & 0x7f) as bv7 == 0x20
  {
  }

  lemma FixedWords()
    ensures Decode(0x0ff0_000f) == Some(Rv32i.Fence) && Decode(0x0000_0073) == Some(Ecall)
    ensures Decode(0x0010_0073) == Some(Ebreak) && Decode(0x3020_0073) == Some(Mret)
  {
  }

  /** Which decoder an opcode selects. */
  lemma ByOpcode(w: Word)
    ensures (w & 0x7f) as bv7 == 0x03 ==> Decode(w) == DecodeLoad(w)
    ensures (w & 0x7f) as bv7 == 0x23 ==> Decode(w) == DecodeStore(w)
    ensures (w & 0x7f) as bv7 == 0x73 ==> Decode(w) == DecodeSystem(w)
    ensures (w & 0x7f) as bv7 == 0x13 && DecodeOpImm(w).Some? ==>
              Decode(w) == Some(OpImm(DecodeOpImm(w).value, Rd(w), Rs1(w), ImmI(w)))
    ensures (w & 0x7f) as bv7 == 0x33 && DecodeOp(w).Some? ==>
              Decode(w) == Some(OpReg(DecodeOp(w).value, Rd(w), Rs1(w), Rs2(w)))
    ensures (w & 0x7f) as bv7 == 0x63 && DecodeCond(w).Some? ==>
              Decode(w) == Some(Branch(DecodeCond(w).value, Rs1(w), Rs2(w), ImmB(w)))
  {
    hide Rd, Rs1, Rs2, ImmI, ImmB, ImmS, ImmU, ImmJ, DecodeOp, DecodeOpImm, DecodeCond, DecodeLoad, DecodeStore,
      DecodeSystem, DecodeFence, Funct3;
  }

  /** FENCE with any predecessor and successor set. */
  lemma DecodesFence(pred: bv4, succ: bv4)
    ensures Decode(((pred as Word) << 24) | ((succ as Word) << 20) | 0xf) == Some(Rv32i.Fence)
  {
    hide DecodeOp, DecodeOpImm, DecodeCond, DecodeLoad, DecodeStore, DecodeSystem;
  }

  lemma OpRegBack(op: Op, w: Word)
    requires Funct3(w) == OpFunct3(op) && Funct7(w) == if op.Sub? || op.Sra? then 0x20 else 0
    ensures DecodeOp(w) == Some(op)
  {
    hide Funct3, Funct7;
  }

  lemma DecodesRegisters(op: Op, rd: RegIndex, rs1: RegIndex, rs2: RegIndex)
    ensures Decode(Encode(OpReg(op, rd, rs1, rs2))) == Some(OpReg(op, rd, rs1, rs2))
  {
    hide Word32, RegIndexOf, Reg, Funct3, Funct7, Rd, Rs1, Rs2, Decode, DecodeOp, OpFunct3;
    ByOpcode(Encode(OpReg(op, rd, rs1, rs2)));
    FieldsBack(if op.Sub? || op.Sra? then 0x20 else 0, Reg(rs2), Reg(rs1), OpFunct3(op), Reg(rd), 0x33);
    OpRegBack(op, Encode(OpReg(op, rd, rs1, rs2)));
    RegBack(rs1);
    RegBack(rs2);
    RegBack(rd);
  }

  lemma OpImmBack(op: Op, w: Word)
    requires !op.Sub? && Funct3(w) == OpFunct3(op)
    requires op.Sll? || op.Srl? ==> Funct7(w) == 0
    requires op.Sra? ==> Funct7(w) == 0x20
    ensures DecodeOpImm(w) == Some(op)
  {
    hide Funct3, Funct7;
  }

  lemma DecodesImmediate(op: Op, rd: RegIndex, rs1: RegIndex, imm: Word)
    requires Encodable(OpImm(op, rd, rs1, imm))
    ensures Decode(Encode(OpImm(op, rd, rs1, imm))) == Some(OpImm(op, rd, rs1, imm))
  {
    hide WordI, Reg, Funct3, Funct7, Rd, Rs1, ImmI, Fits, Decode, DecodeOpImm, OpFunct3;
    ByOpcode(Encode(OpImm(op, rd, rs1, imm)));
    ShiftsFit(imm);
    WordIBack(imm, rs1, OpFunct3(op), rd, 0x13);
    OpImmBack(op, Encode(OpImm(op, rd, rs1, imm)));
  }

  lemma LoadBack(width: Width, unsigned: bool, w: Word)
    requires !(unsigned && width.Full?) && Funct3(w) == LoadFunct3(width, unsigned)
    ensures DecodeLoad(w) == Some(Load(width, unsigned, Rd(w), Rs1(w), ImmI(w)))
  {
    hide Funct3, Rd, Rs1, ImmI;
  }

  lemma DecodesLoad(width: Width, unsigned: bool, rd: RegIndex, rs1: RegIndex, imm: Word)
    requires Encodable(Load(width, unsigned, rd, rs1, imm))
    ensures Decode(Encode(Load(width, unsigned, rd, rs1, imm))) == Some(Load(width, unsigned, rd, rs1, imm))
  {
    hide WordI, Reg, Funct3, Funct7, Rd, Rs1, ImmI, Fits, Decode, DecodeLoad, LoadFunct3;
    ByOpcode(Encode(Load(width, unsigned, rd, rs1, imm)));
    WordIBack(imm, rs1, LoadFunct3(width, unsigned), rd, 0x03);
    LoadBack(width, unsigned, Encode(Load(width, unsigned, rd, rs1, imm)));
  }

  lemma DecodesStore(width: Width, rs1: RegIndex, rs2: RegIndex, imm: Word)
    requires Encodable(Store(width, rs1, rs2, imm))
    ensures Decode(Encode(Store(width, rs1, rs2, imm))) == Some(Store(width, rs1, rs2, imm))
  {
    hide WordS, Reg, Funct3, Funct7, Rs2, Rs1, ImmS, Fits, Decode;
    ByOpcode(Encode(Store(width, rs1, rs2, imm)));
    WordSBack(imm, rs2, rs1, WidthFunct3(width), 0x23);
  }

  lemma DecodesBranch(cond: Cond, rs1: RegIndex, rs2: RegIndex, imm: Word)
    requires Encodable(Branch(cond, rs1, rs2, imm))
    ensures Decode(Encode(Branch(cond, rs1, rs2, imm))) == Some(Branch(cond, rs1, rs2, imm))
  {
    hide WordB, Reg, Funct3, Funct7, Rs2, Rs1, ImmB, Fits, Decode;
    ByOpcode(Encode(Branch(cond, rs1, rs2, imm)));
    WordBBack(imm, rs2, rs1, CondFunct3(cond), 0x63);
  }

  lemma DecodesCsr(kind: CsrOp, rd: RegIndex, rs1: RegIndex, csr: bv12)
    ensures Decode(Encode(Csr(kind, rd, rs1, csr))) == Some(Csr(kind, rd, rs1, csr))
  {
    hide WordI, Reg, Funct3, Funct7, Rd, Rs1, CsrField, Fits, RegIndexOf, Decode;
    ByOpcode(Encode(Csr(kind, rd, rs1, csr)));
    WordIBack(csr as Word, rs1, KindFunct3(kind), rd, 0x73);
    CsrBack(csr, Reg(rs1), KindFunct3(kind), Reg(rd), 0x73);
  }

  lemma DecodesJumps(rd: RegIndex, rs1: RegIndex, imm: Word)
    ensures imm % 0x1000 == 0 ==> Decode(WordU(imm, Reg(rd), 0x37)) == Some(Lui(rd, imm))
    ensures imm % 0x1000 == 0 ==> Decode(WordU(imm, Reg(rd), 0x17)) == Some(Auipc(rd, imm))
    ensures Fits(imm, 0x10_0000) && imm % 2 == 0 ==> Decode(WordJ(imm, Reg(rd), 0x6f)) == Some(Jal(rd, imm))
    ensures Fits(imm, 0x800) ==> Decode(WordI(imm, Reg(rs1), 0, Reg(rd), 0x67)) == Some(Jalr(rd, rs1, imm))
  {
    hide WordU, WordJ, WordI, Reg, Funct3, Funct7, Rd, Rs1, ImmU, ImmJ, ImmI, Fits;
    if imm % 0x1000 == 0 {
      WordUBack(imm, rd, 0x37);
      WordUBack(imm, rd, 0x17);
    }
    if Fits(imm, 0x10_0000) && imm % 2 == 0 { WordJBack(imm, rd, 0x6f); }
    if Fits(imm, 0x800) { WordIBack(imm, rs1, 0, rd, 0x67); }
  }

  /** Every instruction decodes from the word its format gives it. */
  lemma DecodeEncode(i: Instr)
    requires Encodable(i)
    ensures Decode(Encode(i)) == Some(i)
  {
    hide Decode, WordI, WordU, WordJ, WordS, WordB, Word32, Reg, Fits;
    match i
    case Lui(rd, imm) => DecodesJumps(rd, 0, imm);
    case Auipc(rd, imm) => DecodesJumps(rd, 0, imm);
    case Jal(rd, imm) => DecodesJumps(rd, 0, imm);
    case Jalr(rd, rs1, imm) => DecodesJumps(rd, rs1, imm);
    case Branch(cond, rs1, rs2, imm) => DecodesBranch(cond, rs1, rs2, imm);
    case Load(width, unsigned, rd, rs1, imm) => DecodesLoad(width, unsigned, rd, rs1, imm);
    case Store(width, rs1, rs2, imm) => DecodesStore(width, rs1, rs2, imm);
    case OpImm(op, rd, rs1, imm) => DecodesImmediate(op, rd, rs1, imm);
    case OpReg(op, rd, rs1, rs2) => DecodesRegisters(op, rd, rs1, rs2);
    case Csr(kind, rd, rs1, csr) => DecodesCsr(kind, rd, rs1, csr);
    case _ => FixedWords();
  }
}
