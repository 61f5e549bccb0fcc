/** The clocked modules of the core: register file, CSR unit, RAM and the core that wires them. Each
    clock is proved to compute the next-state function its module's lemmas are about. */
module CoreModules {
  import opened Bits
  import opened Control
  import opened CsrUnit
  import opened Memory
  import opened Rv32i
  import opened Pipeline
  import X = Execute

  class RegFile {
    const regs: array<Word>

    constructor ()
      ensures fresh(regs) && regs.Length == 32
    {
      regs := new Word[32];
    }

    predicate Valid() {
      regs.Length == 32
    }

    function Contents(): Regs
      reads regs
      requires Valid()
    {
      regs[..]
    }

    /** The write port guards register 0. */
    method Clock(wen: bool, waddr: RegIndex, wdata: Word)
      requires Valid()
      modifies regs
      ensures Contents() == if wen && waddr != 0 then old(Contents())[waddr := wdata] else old(Contents())
    {
      if wen && waddr != 0 {
        regs[waddr] := wdata;
      }
    }
  }

  class Csr {
    var m: MachineCsrs
    var meip: bool
    var mtip: bool
    var msip: bool
    var cycle: Word
    var cycleh: Word
    var time: Word
    var timeh: Word

    function Regs(): CsrRegs
      reads this
    {
      CsrRegs(m, meip, mtip, msip, cycle, cycleh, time, timeh)
    }

    constructor (bootAddr: Word)
      ensures Regs() == CsrRegs(MachineCsrs(MACHINE, false, false, MACHINE, false, false, false, bootAddr, 0, 0, 0),
                                false, false, false, 0, 0, 0, 0)
    {
      m := MachineCsrs(MACHINE, false, false, MACHINE, false, false, false, bootAddr, 0, 0, 0);
      meip, mtip, msip := false, false, false;
      cycle, cycleh, time, timeh := 0, 0, 0, 0;
    }

    method WriteRegister(a: bv12, v: Word)
      modifies this
      ensures Regs() == Written(old(Regs()), a, v)
    {
      if a == MSTATUS {
        m := m.(mpp := Slice(v, 11, 3) as bv2, mpie := Slice(v, 7, 1) != 0, mie := Slice(v, 3, 1) != 0);
      } else if a == MIP {
        meip, mtip, msip := Slice(v, 11, 1) != 0, Slice(v, 7, 1) != 0, Slice(v, 3, 1) != 0;
      } else if a == MIE {
        m := m.(meie := Slice(v, 11, 1) != 0, mtie := Slice(v, 7, 1) != 0, msie := Slice(v, 3, 1) != 0);
      } else if a == MSCRATCH {
        m := m.(mscratch := v);
      } else if a == MTVEC {
        m := m.(mtvec := v);
      } else if a == MEPC {
        m := m.(mepc := ShiftedDown(v));
      } else if a == MCAUSE {
        m := m.(mcause := v);
      }
    }

    /** Trap, return and write exclude one another. */
    method Retire(i: CsrIn)
      modifies this
      ensures Regs() == Commit(old(Regs()), i)
    {
      hide Exception, Rdata, Written, WriteData, Cause, ShiftedDown;
      var before := Regs();
      if Exception(before, i) {
        m := m.(mepc := ShiftedDown(i.pc), mcause := Cause(before, i),
                priv := MACHINE, mie := false, mpie := m.mie, mpp := m.priv);
      } else if i.csrType == CsrEr {
        m := m.(priv := m.mpp, mie := m.mpie, mpp := USER, mpie := true);
      } else if WriteEnabled(i) {
        WriteRegister(i.csr, WriteData(before, i));
      }
    }

    method Count()
      modifies this
      ensures Regs() == Counted(old(Regs()))
    {
      hide Plus;
      if time == 0xffff_ffff {
        timeh := Plus(timeh, 1);
      }
      time := Plus(time, 1);
      if cycle == 0xffff_ffff {
        cycleh := Plus(cycleh, 1);
      }
      cycle := Plus(cycle, 1);
    }

    method Clock(i: CsrIn)
      modifies this
      ensures Regs() == CsrNext(old(Regs()), i)
    {
      hide Commit, Counted;
      Retire(i);
      Count();
    }
  }

  class Ram {
    var mem: Words
    var irdata: Word
    var drdata: Word
    var irvalid: bool

    constructor (image: Words)
      ensures mem == image && !irvalid
    {
      mem, irdata, drdata, irvalid := image, 0, 0, false;
    }

    /** Reads register the old contents; a write takes only the enabled byte lanes. */
    method Clock(ireq: bool, iaddr: Word, dreq: bool, we: bool, daddr: Word, be: bv4, wdata: Word)
      modifies this
      ensures mem == if dreq && we then WriteWord(old(mem), daddr, wdata, be) else old(mem)
      ensures irdata == old(mem)[Index(iaddr)] && drdata == old(mem)[Index(daddr)] && irvalid == ireq
    {
      hide Index, Merge;
      var word := mem[Index(daddr)];
      irdata, drdata, irvalid := mem[Index(iaddr)], word, ireq;
      if dreq && we {
        var lanes := WriteLanes(word, wdata, be);
        mem := mem[Index(daddr) := lanes];
      }
    }

    static method WriteLanes(prior: Word, wdata: Word, be: bv4) returns (word: Word)
      ensures word == Merge(prior, wdata, be)
    {
      hide TakeBits;
      word := prior;
      if be & 8 != 0 {
        word := TakeBits(word, wdata, 0xff00_0000);
      }
      if be & 4 != 0 {
        word := TakeBits(word, wdata, 0xff_0000);
      }
      if be & 2 != 0 {
        word := TakeBits(word, wdata, 0xff00);
      }
      if be & 1 != 0 {
        word := TakeBits(word, wdata, 0xff);
      }
    }
  }

  /** The core with its RAM on both ports. `genuine` records whether fe.inst was fetched. */
  class Core {
    const rf: RegFile
    const csr: Csr
    const ram: Ram
    var pc: Word
    var fe: Fe
    var ew: Ew
    var hostResp: bool
    var ramResp: bool
    var genuine: bool

    constructor (rf: RegFile, csr: Csr, ram: Ram, pc: Word, fe: Fe, ew: Ew)
      ensures this.rf == rf && this.csr == csr && this.ram == ram
      ensures this.pc == pc && this.fe == fe && this.ew == ew && !hostResp && !ramResp && !genuine
    {
      this.rf, this.csr, this.ram := rf, csr, ram;
      this.pc, this.fe, this.ew := pc, fe, ew;
      hostResp, ramResp, genuine := false, false, false;
    }

    predicate Valid() {
      rf.Valid()
    }

    function Now(): State
      reads this, rf.regs, csr, ram
      requires Valid()
    {
      State(pc, fe, ew, genuine, rf.Contents(), csr.Regs(), ram.mem, ram.irdata, ram.irvalid, ram.drdata,
                  hostResp, ramResp)
    }

    /** A register read, overridden by the forwarding path. */
    method ReadOperand(r: RegIndex) returns (v: Word)
      requires Valid()
      ensures v == Operand(Now(), r)
    {
      v := rf.regs[r];
      if ew.wbEn && ew.wbSel == WbAlu && r != 0 && r == ew.rd {
        v := ew.aluOut;
      }
    }

    method ExecuteStage() returns (g: Stage)
      requires Valid()
      ensures g == StageOf(Now())
    {
      hide Control.Decode, X.FieldsOf, X.Perform, Operand;
      var c, f := Control.Decode(fe.inst), X.FieldsOf(fe.inst);
      var rs1r := ReadOperand(f.rs1);
      var rs2r := ReadOperand(f.rs2);
      g := Stage(c, f, X.Perform(c, fe.inst, fe.pc, rs1r, rs2r));
    }

    /** The clock edge in the register file, the CSR unit and the RAM. */
    method ClockModules(g: Stage, next: Word, wdata: Word, csrIn: CsrIn, selected: bool)
      requires Valid()
      modifies rf.regs, csr, ram
      ensures rf.Contents() == if ew.wbEn && ew.rd != 0 then old(rf.Contents())[ew.rd := wdata] else old(rf.Contents())
      ensures csr.Regs() == CsrNext(old(csr.Regs()), csrIn)
      ensures ram.mem ==
              if selected && g.x.we then WriteWord(old(ram.mem), g.x.addr, g.x.wdata, g.x.be) else old(ram.mem)
      ensures ram.irdata == old(ram.mem)[Index(next)] && ram.irvalid
      ensures ram.drdata == old(ram.mem)[Index(if selected then g.x.addr else 0)]
    {
      hide WriteWord, CsrNext, Index;
      rf.Clock(ew.wbEn, ew.rd, wdata);
      csr.Clock(csrIn);
      ram.Clock(true, next, selected, g.x.we, if selected then g.x.addr else 0, g.x.be, g.x.wdata);
    }

    /** One clock of the core. */
    method Clock()
      requires Valid()
      modifies this, rf.regs, csr, ram
      ensures Valid()
      ensures Now() == Next(old(Now()))
    {
      hide StageOf, FetchNext, Flush, WbValue, CsrInput, WriteWord, CsrNext, Index, RamSelected;
      var g := ExecuteStage();
      var next, flush, selected := FetchNext(Now(), g), Flush(Now(), g), RamSelected(g);
      var fe' := Fe(pc, if flush then NOP else ram.irdata, true, next);
      var ew' := Ew(g.x.req, g.x.addr, fe.imemReq, fe.imemAddr, ram.irvalid, false,
                    g.c.wbSel, g.c.wbEn, g.c.ldType, g.c.csrType, g.c.illegal,
                    g.f.rd, fe.pc, g.x.aluOut, g.f.csr, g.f.rs1, g.x.rs1r);
      ClockModules(g, next, WbValue(Now()), CsrInput(Now()), selected);
      pc, fe, ew := next, fe', ew';
      hostResp, ramResp, genuine := g.x.req, selected, !flush;
    }
  }
}
