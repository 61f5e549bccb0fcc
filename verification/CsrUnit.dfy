/** The CSR unit: trap entry, trap return and CSR writes, one clock at a time. */
module CsrUnit {
  import opened Bits
  import opened Control
  import opened Rv32i

  const MIP: bv12 := 0x344
  const CYCLE: bv12 := 0xc00
  const TIME: bv12 := 0xc01
  const CYCLEH: bv12 := 0xc80
  const TIMEH: bv12 := 0xc81
  const MIMPID: bv12 := 0xf13
  const MISA: bv12 := 0x301

  /** The architectural CSRs, the pending bits and the counters. Registers that no path writes
      (mtval, instret) and the hard-wired zero CSRs read as zero. */
  datatype CsrRegs = CsrRegs(
    m: MachineCsrs, meip: bool, mtip: bool, msip: bool,
    cycle: Word, cycleh: Word, time: Word, timeh: Word)

  /** One memory port as the CSR unit sees it: the request and its response. */
  datatype Port = Port(req: bool, addr: Word, rvalid: bool, err: bool)

  datatype CsrIn = CsrIn(
    csrType: CsrType, illegal: bool, pc: Word, csr: bv12, rs1: RegIndex, wdata: Word, imem: Port, dmem: Port)

  function Rdata(h: CsrRegs, a: bv12): (r: Word) {
    if a == CYCLE then h.cycle
    else if a == TIME then h.time
    else if a == CYCLEH then h.cycleh
    else if a == TIMEH then h.timeh
    else if a == MIMPID then 5000
    else if a == MSTATUS then ((h.m.mpp as Word) << 11) | (BoolWord(h.m.mpie) << 7) | (BoolWord(h.m.mie) << 3)
    else if a == MISA then 0x4010_0100
    else if a == MIP then (BoolWord(h.meip) << 11) | (BoolWord(h.mtip) << 7) | (BoolWord(h.msip) << 3)
    else if a == MIE then (BoolWord(h.m.meie) << 11) | (BoolWord(h.m.mtie) << 7) | (BoolWord(h.m.msie) << 3)
    else if a == MTVEC then h.m.mtvec
    else if a == MSCRATCH then h.m.mscratch
    else if a == MEPC then h.m.mepc
    else if a == MCAUSE then h.m.mcause
    else 0
  }

  predicate WriteEnabled(i: CsrIn) {
    i.csrType == CsrW || i.csrType == CsrS || (i.csrType == CsrC && i.rs1 != 0)
  }

  function WriteData(h: CsrRegs, i: CsrIn): (r: Word) {
    match i.csrType
    case CsrW => i.wdata
    case CsrS => SetBits(Rdata(h, i.csr), i.wdata)
    case CsrC => ClearBits(Rdata(h, i.csr), i.wdata)
    case _ => 0
  }

  /** Every access outside machine mode counts as illegal unless it is a trap or return itself. */
  predicate IllegalPriv(h: CsrRegs, i: CsrIn) {
    h.m.priv != MACHINE && i.csrType != CsrEc && i.csrType != CsrEb && i.csrType != CsrEr
  }

  predicate Fault(p: Port) { p.err && p.rvalid }

  predicate Misaligned(p: Port) { p.req && p.addr & 3 != 0 }

  predicate Exception(h: CsrRegs, i: CsrIn) {
    i.csrType == CsrEc || i.csrType == CsrEb || i.illegal || IllegalPriv(h, i)
    || Fault(i.imem) || Fault(i.dmem) || Misaligned(i.imem) || Misaligned(i.dmem)
  }

  /** Priority of causes; an ECALL from a mode other than machine or user has no defined cause. */
  function Cause(h: CsrRegs, i: CsrIn): (r: Word) {
    if Fault(i.imem) then 1
    else if Fault(i.dmem) then 5
    else if Misaligned(i.imem) then 0
    else if Misaligned(i.dmem) then 4
    else if i.csrType == CsrEc && h.m.priv == MACHINE then 11
    else if i.csrType == CsrEc && h.m.priv == USER then 8
    else if i.csrType == CsrEb then 3
    else 2
  }

  /** The redirect the unit asks of the fetch stage this clock. */
  function Redirect(h: CsrRegs, i: CsrIn): (r: Option<Word>) {
    if Exception(h, i) then Some(h.m.mtvec)
    else if i.csrType == CsrEr then Some(h.m.mepc)
    else None
  }

  function Written(h: CsrRegs, a: bv12, v: Word): (r: CsrRegs) {
    if a == MSTATUS then
      h.(m := h.m.(mpp := Slice(v, 11, 3) as bv2, mpie := Slice(v, 7, 1) != 0, mie := Slice(v, 3, 1) != 0))
    else if a == MIP then
      h.(meip := Slice(v, 11, 1) != 0, mtip := Slice(v, 7, 1) != 0, msip := Slice(v, 3, 1) != 0)
    else if a == MIE then
      h.(m := h.m.(meie := Slice(v, 11, 1) != 0, mtie := Slice(v, 7, 1) != 0, msie := Slice(v, 3, 1) != 0))
    else if a == MSCRATCH then h.(m := h.m.(mscratch := v))
    else if a == MTVEC then h.(m := h.m.(mtvec := v))
    else if a == MEPC then h.(m := h.m.(mepc := ShiftedDown(v)))
    else if a == MCAUSE then h.(m := h.m.(mcause := v))
    else h
  }

  /** The addresses and levels the Privileged ISA assigns, section 2.2 and table 1.1. */
  lemma AddressMap(h: CsrRegs)
    ensures MSTATUS == 0x300 && MIE == 0x304 && MTVEC == 0x305
    ensures MSCRATCH == 0x340 && MEPC == 0x341 && MCAUSE == 0x342 && MIP == 0x344
    ensures Rdata(h, 0xc00) == h.cycle && Rdata(h, 0xc80) == h.cycleh
    ensures Rdata(h, 0xc01) == h.time && Rdata(h, 0xc81) == h.timeh
    ensures Rdata(h, 0xf13) == 5000 && Rdata(h, 0x301) == 0x4010_0100
    ensures USER == 0 && MACHINE == 3
  {
  }

  /** The conditions that trap, in order of priority, each with its cause. */
  function Conditions(h: CsrRegs, i: CsrIn): (r: seq<(bool, Word)>)
    ensures |r| > 0
  {
    [(i.imem.err && i.imem.rvalid, 1), (i.dmem.err && i.dmem.rvalid, 5),
     (i.imem.req && i.imem.addr % 4 != 0, 0), (i.dmem.req && i.dmem.addr % 4 != 0, 4),
     (i.csrType == CsrEc && h.m.priv == 3, 11), (i.csrType == CsrEc && h.m.priv == 0, 8),
     (i.csrType == CsrEb, 3), (true, 2)]
  }

  function FirstOf(c: seq<(bool, Word)>): Word
    requires |c| > 0
  {
    if c[0].0 || |c| == 1 then c[0].1 else FirstOf(c[1..])
  }

  /** The cause recorded is that of the first condition that holds, and an illegal instruction's if none
      does. */
  lemma CauseIsFirst(h: CsrRegs, i: CsrIn)
    ensures Cause(h, i) == FirstOf(Conditions(h, i))
  {
    var c := Conditions(h, i);
    assert FirstOf(c[6..]) == if c[6].0 then c[6].1 else c[7].1 by { assert c[6..][1..] == c[7..]; }
    Unfolds(c, 5);
    Unfolds(c, 4);
    Unfolds(c, 3);
    Unfolds(c, 2);
    Unfolds(c, 1);
    Unfolds(c, 0);
    assert c[0..] == c;
  }

  lemma Unfolds(c: seq<(bool, Word)>, k: nat)
    requires k + 1 < |c|
    ensures FirstOf(c[k..]) == if c[k].0 then c[k].1 else FirstOf(c[k + 1..])
  {
    assert c[k..][1..] == c[k + 1..];
  }

  /** Trap, return or write: exactly one of the three takes effect. */
  function Commit(h: CsrRegs, i: CsrIn): (r: CsrRegs) {
    if Exception(h, i) then
      h.(m := h.m.(mepc := ShiftedDown(i.pc), mcause := Cause(h, i),
                   priv := MACHINE, mie := false, mpie := h.m.mie, mpp := h.m.priv))
    else if i.csrType == CsrEr then
      h.(m := h.m.(priv := h.m.mpp, mie := h.m.mpie, mpp := USER, mpie := true))
    else if WriteEnabled(i) then Written(h, i.csr, WriteData(h, i))
    else h
  }

  function Counted(h: CsrRegs): (r: CsrRegs) {
    h.(time := Plus(h.time, 1), timeh := if h.time == 0xffff_ffff then Plus(h.timeh, 1) else h.timeh,
       cycle := Plus(h.cycle, 1), cycleh := if h.cycle == 0xffff_ffff then Plus(h.cycleh, 1) else h.cycleh)
  }

  /** Both counters are one 64-bit number each, which counts clocks. */
  lemma CountsClocks(h: CsrRegs)
    ensures Joint(Counted(h).cycleh, Counted(h).cycle) == Joint(h.cycleh, h.cycle) + 1
    ensures Joint(Counted(h).timeh, Counted(h).time) == Joint(h.timeh, h.time) + 1
    ensures Counted(h).m == h.m
  {
    hide Joint;
    OneMore(h.cycleh, h.cycle);
    OneMore(h.timeh, h.time);
  }

  function Joint(high: Word, low: Word): bv64 {
    ((high as bv64) << 32) | (low as bv64)
  }

  lemma OneMore(high: Word, low: Word)
    ensures Joint(if low == 0xffff_ffff then Plus(high, 1) else high, Plus(low, 1)) == Joint(high, low) + 1
  {
  }

  /** One clock of the CSR unit. */
  function CsrNext(h: CsrRegs, i: CsrIn): (r: CsrRegs) {
    Counted(Commit(h, i))
  }

  /* ---- Against the instruction set ---- */

  lemma RdataAgrees(h: CsrRegs, a: bv12)
    requires ReadWriteCsr(a)
    ensures Rdata(h, a) == ReadCsr(h.m, a)
  {
  }

  lemma WrittenStatus(h: CsrRegs, v: Word)
    ensures Written(h, MSTATUS, v).m == WriteCsr(h.m, MSTATUS, v)
  {
  }

  lemma WrittenEnables(h: CsrRegs, v: Word)
    ensures Written(h, MIE, v).m == WriteCsr(h.m, MIE, v)
  {
  }

  lemma WrittenAgrees(h: CsrRegs, a: bv12, v: Word)
    requires ReadWriteCsr(a)
    ensures Written(h, a, v).m == WriteCsr(h.m, a, v)
  {
    if a == MSTATUS {
      WrittenStatus(h, v);
    } else if a == MIE {
      WrittenEnables(h, v);
    } else {
      RoundDown(v);
      hide WordAddress, Slice, ShiftedDown;
    }
  }

  lemma RewriteStatus(c: MachineCsrs)
    ensures WriteCsr(c, MSTATUS, ReadCsr(c, MSTATUS)) == c
  {
  }

  lemma RewriteEnables(c: MachineCsrs)
    ensures WriteCsr(c, MIE, ReadCsr(c, MIE)) == c
  {
  }

  lemma RewritePlain(c: MachineCsrs, a: bv12)
    requires ReadWriteCsr(a) && a != MSTATUS && a != MIE && WordAddress(c.mepc) == c.mepc
    ensures WriteCsr(c, a, ReadCsr(c, a)) == c
  {
    hide WordAddress;
  }

  /** Setting no bits writes back what a CSR with an aligned mepc holds. */
  lemma RewriteIsNoOp(c: MachineCsrs, a: bv12)
    requires ReadWriteCsr(a) && WordAligned(c.mepc)
    ensures WriteCsr(c, a, ReadCsr(c, a)) == c
  {
    RoundDown(c.mepc);
    hide WordAligned, WordAddress, WriteCsr, ReadCsr, ReadWriteCsr;
    if a == MSTATUS {
      RewriteStatus(c);
    } else if a == MIE {
      RewriteEnables(c);
    } else {
      RewritePlain(c, a);
    }
  }

  /** The same in the unit itself, for every address: mip, which the instruction set leaves to the platform,
      and addresses that no write reaches included. */
  lemma RewriteChangesNothing(h: CsrRegs, a: bv12)
    requires WordAligned(h.m.mepc)
    ensures Written(h, a, Rdata(h, a)) == h
  {
    hide WordAligned;
    if a == MIP { RewritePending(h); }
    else if ReadWriteCsr(a) {
      hide Rdata, ReadCsr, WriteCsr;
      RdataAgrees(h, a);
      WrittenAgrees(h, a, Rdata(h, a));
      RewriteIsNoOp(h.m, a);
      WrittenElsewhere(h, a, Rdata(h, a));
    }
  }

  lemma RewritePending(h: CsrRegs)
    ensures Written(h, MIP, Rdata(h, MIP)) == h
  {
  }

  lemma WrittenElsewhere(h: CsrRegs, a: bv12, v: Word)
    requires a != MIP
    ensures Written(h, a, v) == h.(m := Written(h, a, v).m)
  {
    hide Slice, ShiftedDown;
  }

  /** The bits of a CSR that a write can set. */
  function Legal(a: bv12): Word {
    if a == MSTATUS then 0x1888
    else if a == MIP || a == MIE then 0x888
    else if a == MEPC then 0xffff_fffc
    else 0xffff_ffff
  }

  /** A CSR that can be written, mip among them, reads as what was written, cut to the bits it has. */
  lemma ReadBack(h: CsrRegs, a: bv12, v: Word)
    requires ReadWriteCsr(a) || a == MIP
    ensures Rdata(Written(h, a, v), a) == v & Legal(a)
  {
    if a == MSTATUS { ReadBackStatus(h, v); }
    else if a == MIP || a == MIE { ReadBackBits(h, a, v); }
    else {
      hide Rdata, Written, ShiftedDown;
      ReadBackWord(h, a, v);
      MaskedWord(v);
      MaskedAddress(v);
    }
  }

  lemma ReadBackStatus(h: CsrRegs, v: Word)
    ensures Rdata(Written(h, MSTATUS, v), MSTATUS) == v & 0x1888
  {
  }

  lemma ReadBackBits(h: CsrRegs, a: bv12, v: Word)
    requires a == MIP || a == MIE
    ensures Rdata(Written(h, a, v), a) == v & 0x888
  {
  }

  lemma ReadBackWord(h: CsrRegs, a: bv12, v: Word)
    requires a == MTVEC || a == MSCRATCH || a == MEPC || a == MCAUSE
    ensures Rdata(Written(h, a, v), a) == if a == MEPC then ShiftedDown(v) else v
  {
    hide ShiftedDown, Slice;
  }

  lemma MaskedWord(v: Word)
    ensures v & 0xffff_ffff == v
  {
  }

  lemma MaskedAddress(v: Word)
    ensures ShiftedDown(v) == v & 0xffff_fffc
  {
  }

  lemma RoundDown(a: Word)
    ensures ShiftedDown(a) == WordAddress(a)
    ensures WordAligned(a) ==> WordAddress(a) == a
  {
  }

  /** ECALL and EBREAK perform the trap entry of the Privileged ISA, section 3.1.6.1. */
  lemma CommitTraps(h: CsrRegs, i: CsrIn)
    requires i.csrType == CsrEc || i.csrType == CsrEb
    requires !Fault(i.imem) && !Fault(i.dmem) && !Misaligned(i.imem) && !Misaligned(i.dmem)
    requires h.m.priv == MACHINE && WordAligned(i.pc)
    ensures Commit(h, i).m == Trap(h.m, i.pc, if i.csrType == CsrEc then CAUSE_ECALL_M else CAUSE_BREAKPOINT)
  {
    RoundDown(i.pc);
    hide Fault, Misaligned, WordAligned, WordAddress, ShiftedDown;
  }

  /** MRET performs the trap return of the Privileged ISA, section 3.3.2. */
  lemma CommitReturns(h: CsrRegs, i: CsrIn)
    requires i.csrType == CsrEr && !Exception(h, i)
    ensures Commit(h, i).m == Return(h.m)
  {
    hide Exception;
  }

  /** A CSR instruction writes what the instruction set says, masks included. */
  lemma CommitWrites(h: CsrRegs, i: CsrIn, kind: CsrOp)
    requires i.csrType == match kind case Write => CsrW case Set => CsrS case Clear => CsrC
    requires !Exception(h, i) && ReadWriteCsr(i.csr)
    requires i.rs1 == 0 ==> i.wdata == 0
    requires WordAligned(h.m.mepc)
    ensures Commit(h, i).m == CsrEffect(h.m, kind, i.csr, i.rs1, i.wdata)
  {
    hide Exception, Written, Rdata, ReadCsr, WriteCsr, ReadWriteCsr, WordAligned, SetBits, ClearBits;
    RdataAgrees(h, i.csr);
    WrittenAgrees(h, i.csr, WriteData(h, i));
    RewriteIsNoOp(h.m, i.csr);
    OrZero(ReadCsr(h.m, i.csr));
  }

  lemma OrZero(x: Word)
    ensures SetBits(x, 0) == x
  {
  }

  lemma CommitNothing(h: CsrRegs, i: CsrIn)
    requires i.csrType == CsrN && !Exception(h, i)
    ensures Commit(h, i) == h
  {
    hide Exception;
  }
}
