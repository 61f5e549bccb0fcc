/** The three-stage pipeline as a function from one clock to the next: the fetch pc and the word the
    RAM registered for it, the `fe` registers feeding execute, the `ew` registers feeding
    write-back, the register file, the CSR unit, the RAM and the data bus's response registers. */
module Pipeline {
  import opened Bits
  import opened Control
  import opened CsrUnit
  import opened Memory
  import opened Rv32i
  import X = Execute

  datatype Fe = Fe(pc: Word, inst: Word, imemReq: bool, imemAddr: Word)

  datatype Ew = Ew(
    dmemReq: bool, dmemAddr: Word, imemReq: bool, imemAddr: Word, imemRvalid: bool, imemErr: bool,
    wbSel: WbSel, wbEn: bool, ldType: LdType, csrType: CsrType, illegal: bool,
    rd: RegIndex, pc: Word, aluOut: Word, csr: bv12, rs1: RegIndex, rs1r: Word)

  /** `genuine` is history, not hardware: it says whether fe.inst was fetched or injected by a flush.
      No other part of the next state depends on it. */
  datatype State = State(
    pc: Word, fe: Fe, ew: Ew, genuine: bool,
    regs: Regs, csr: CsrRegs, words: Words,
    irdata: Word, irvalid: bool, drdata: Word,
    hostResp: bool, ramResp: bool)

  /* ---- Combinational signals ---- */

  /** The data port's response: the previous request's host and device selections decide it. A
      request outside the RAM window has no device and answers with an error. */
  function DataPort(s: State): (r: Port) {
    Port(s.ew.dmemReq, s.ew.dmemAddr, s.hostResp, s.hostResp && !s.ramResp)
  }

  function Loaded(s: State): (r: Word) {
    if s.hostResp && s.ramResp then s.drdata else 0
  }

  function CsrInput(s: State): (r: CsrIn) {
    CsrIn(s.ew.csrType, s.ew.illegal, s.ew.pc, s.ew.csr, s.ew.rs1, s.ew.rs1r,
          Port(s.ew.imemReq, s.ew.imemAddr, s.ew.imemRvalid, s.ew.imemErr), DataPort(s))
  }

  function Epc(s: State): (r: Option<Word>) {
    Redirect(s.csr, CsrInput(s))
  }

  /** A register operand, forwarded from the ALU result that is still being written back. */
  function Operand(s: State, r: RegIndex): (v: Word) {
    if s.ew.wbEn && s.ew.wbSel == WbAlu && r != 0 && r == s.ew.rd then s.ew.aluOut else s.regs[r]
  }

  /** What the execute stage sees and produces this clock. */
  datatype Stage = Stage(c: Signals, f: X.Fields, x: X.Outcome)

  function StageOf(s: State): (r: Stage) {
    var c, f := Control.Decode(s.fe.inst), X.FieldsOf(s.fe.inst);
    Stage(c, f, X.Perform(c, s.fe.inst, s.fe.pc, Operand(s, f.rs1), Operand(s, f.rs2)))
  }

  function Flush(s: State, g: Stage): (r: bool) {
    g.c.instKill || g.x.taken || Epc(s).Some?
  }

  function FetchNext(s: State, g: Stage): (r: Word) {
    match Epc(s)
    case Some(target) => target
    case None =>
      if g.c.pcSel == PcPlus0 then s.pc
      else if g.c.pcSel == PcAlu || g.x.taken then EvenAddress(g.x.aluOut)
      else Plus(s.pc, 4)
  }

  /** The bus hands the request to the RAM when its window matches. */
  predicate RamSelected(g: Stage) {
    g.x.req && InRam(g.x.addr)
  }

  /* ---- Next values of the registers ---- */

  function FeNext(s: State, g: Stage): (r: Fe) {
    Fe(s.pc, if Flush(s, g) then NOP else s.irdata, true, FetchNext(s, g))
  }

  function EwNext(s: State, g: Stage): (r: Ew) {
    Ew(g.x.req, g.x.addr, s.fe.imemReq, s.fe.imemAddr, s.irvalid, false,
       g.c.wbSel, g.c.wbEn, g.c.ldType, g.c.csrType, g.c.illegal,
       g.f.rd, s.fe.pc, g.x.aluOut, g.f.csr, g.f.rs1, g.x.rs1r)
  }

  function WbValue(s: State): (r: Word) {
    X.WritebackValue(s.ew.wbSel, s.ew.ldType, s.ew.aluOut, Loaded(s), s.ew.pc, Rdata(s.csr, s.ew.csr))
  }

  function RegsNext(s: State): (r: Regs) {
    if s.ew.wbEn && s.ew.rd != 0 then s.regs[s.ew.rd := WbValue(s)] else s.regs
  }

  function WordsNext(s: State, g: Stage): (r: Words) {
    if RamSelected(g) && g.x.we then WriteWord(s.words, g.x.addr, g.x.wdata, g.x.be) else s.words
  }

  /** One clock, given what the execute stage produces. Memory reads see the old contents. */
  function Clock(s: State, g: Stage): (r: State) {
    State(FetchNext(s, g), FeNext(s, g), EwNext(s, g), !Flush(s, g),
          RegsNext(s), CsrNext(s.csr, CsrInput(s)), WordsNext(s, g),
          s.words[Index(FetchNext(s, g))], true,
          s.words[Index(if RamSelected(g) then g.x.addr else 0)],
          g.x.req, RamSelected(g))
  }

  function Next(s: State): (r: State) {
    Clock(s, StageOf(s))
  }
}
