/** The pipeline executes the instruction set: every clock performs exactly one instruction of the
    reference, or none, on the state obtained by letting the write-back stage finish. */
module Refinement {
  import opened Bits
  import opened Control
  import opened CsrUnit
  import opened Memory
  import opened Rv32i
  import opened Pipeline
  import opened Datapath
  import P = Prefetch
  import X = Execute

  /* ---- Abstraction: drain the write-back stage ---- */

  function DrainedPc(s: State): Word {
    match Epc(s)
    case Some(target) => target
    case None => if s.genuine then s.fe.pc else s.pc
  }

  function DrainedCsrs(s: State): MachineCsrs {
    Commit(s.csr, CsrInput(s)).m
  }

  /** The architectural state a pipeline state stands for. */
  ghost predicate Refines(s: State, a: Arch) {
    a.pc == DrainedPc(s) && a.regs == RegsNext(s) && a.csrs == DrainedCsrs(s)
    && SameBytes(BytesOf(s.words), a.mem)
  }

  /* ---- Invariant ---- */

  predicate Traps(t: CsrType) {
    t == CsrEc || t == CsrEb
  }

  /** No access has faulted and nothing is misaligned. */
  predicate Quiet(s: State) {
    !s.ew.illegal && !s.ew.imemErr && (s.hostResp ==> s.ramResp)
    && WordAligned(s.pc) && WordAligned(s.fe.imemAddr) && WordAligned(s.ew.imemAddr) && WordAligned(s.ew.dmemAddr)
  }

  /** Machine mode, with a redirect target that can be fetched from. */
  predicate MachineMode(s: State) {
    s.csr.m.priv == MACHINE && WordAligned(s.csr.m.mepc)
    && (Traps(s.ew.csrType) ==> WordAligned(s.csr.m.mtvec))
    && (s.ew.csrType == CsrEr ==> s.csr.m.mpp == MACHINE)
  }

  /** A fetched instruction sits one word behind the fetch pc and leaves only an ALU result in front of
      it; behind a bubble the fetch register holds what memory holds. */
  ghost predicate InStep(s: State) {
    if s.genuine then s.pc == Plus(s.fe.pc, 4) && s.ew.csrType == CsrN && (s.ew.wbEn ==> s.ew.wbSel == WbAlu)
    else s.fe.inst == NOP && s.irdata == s.words[Index(s.pc)]
  }

  ghost predicate Coherent(s: State) {
    s.regs[0] == 0 && Quiet(s) && MachineMode(s) && InStep(s)
  }

  /* ---- Consequences of the invariant ---- */

  lemma ExceptionIsTrap(s: State)
    requires Quiet(s) && MachineMode(s)
    ensures Exception(s.csr, CsrInput(s)) <==> Traps(s.ew.csrType)
  {
  }

  lemma EpcIs(s: State)
    requires Quiet(s) && MachineMode(s)
    ensures Epc(s) == if Traps(s.ew.csrType) then Some(s.csr.m.mtvec)
                      else if s.ew.csrType == CsrEr then Some(s.csr.m.mepc) else None
  {
    ExceptionIsTrap(s);
    hide Quiet, MachineMode, Exception;
  }

  /** Forwarding makes the operand of a fetched instruction the value it will find written back. */
  lemma OperandIsDrained(s: State, r: RegIndex)
    requires s.regs[0] == 0 && (s.ew.wbEn ==> s.ew.wbSel == WbAlu)
    ensures Operand(s, r) == Get(RegsNext(s), r)
  {
  }

  /** The execute stage produces the values instruction i asks for in state a ... */
  ghost predicate CorrectValues(g: Stage, a: Arch, i: Instr) {
    match i
    case Lui(rd, imm) => g.f.rd == rd && g.x.aluOut == imm
    case Auipc(rd, imm) => g.f.rd == rd && g.x.aluOut == Plus(a.pc, imm)
    case Jal(rd, imm) => g.f.rd == rd && g.x.aluOut == Plus(a.pc, imm)
    case Jalr(rd, rs1, imm) => g.f.rd == rd && g.x.aluOut == Plus(Get(a.regs, rs1), imm)
    case Branch(_, _, _, imm) => g.x.aluOut == Plus(a.pc, imm)
    case Load(_, _, rd, rs1, imm) => g.f.rd == rd && g.x.aluOut == Plus(Get(a.regs, rs1), imm)
    case Store(_, rs1, _, imm) => g.x.aluOut == Plus(Get(a.regs, rs1), imm)
    case OpImm(op, rd, rs1, imm) => g.f.rd == rd && g.x.aluOut == Compute(op, Get(a.regs, rs1), imm)
    case OpReg(op, rd, rs1, rs2) =>
      g.f.rd == rd && g.x.aluOut == Compute(op, Get(a.regs, rs1), Get(a.regs, rs2))
    case Csr(_, rd, rs1, csr) =>
      g.f.rd == rd && g.f.csr == csr && g.f.rs1 == rs1 && g.x.rs1r == Get(a.regs, rs1)
    case _ => true
  }

  /** ... with the control row, the branch decision and the memory request that go with it. */
  ghost predicate CorrectControl(g: Stage, a: Arch, i: Instr) {
    g.c == Row(i)
    && (g.x.taken <==> i.Branch? && Holds(i.cond, Get(a.regs, i.rs1), Get(a.regs, i.rs2)))
    && (g.x.req <==> i.Load? || i.Store?) && (g.x.we <==> i.Store?)
    && g.x.addr == WordAddress(g.x.aluOut)
    && (i.Store? ==> g.x.wdata == X.StoreLanes(Get(a.regs, i.rs2), g.x.aluOut)
                     && g.x.be == X.ByteEnables(Memory.StType(i.width), g.x.aluOut))
  }

  ghost predicate Correct(g: Stage, a: Arch, i: Instr) {
    CorrectControl(g, a, i) && CorrectValues(g, a, i)
  }

  /** State s has fetched instruction i of state a and has drained everything before it. */
  ghost predicate Fetched(s: State, a: Arch, i: Instr) {
    s.genuine && s.regs[0] == 0 && (s.ew.wbEn ==> s.ew.wbSel == WbAlu)
    && a.regs == RegsNext(s) && a.pc == s.fe.pc && Decodes(s.fe.inst, i)
  }

  lemma StageUnfolds(s: State, a: Arch, i: Instr)
    requires Fetched(s, a, i)
    ensures StageOf(s) == Stage(Row(i), X.Fields(Rs1(s.fe.inst), Rs2(s.fe.inst), Rd(s.fe.inst), CsrField(s.fe.inst)),
              X.Perform(Row(i), s.fe.inst, a.pc, Get(a.regs, Rs1(s.fe.inst)), Get(a.regs, Rs2(s.fe.inst))))
  {
    hide Decodes, Control.Decode, X.FieldsOf, X.Perform, Operand, RegsNext, Row, Get, Rs1, Rs2, Rd, CsrField;
    ControlAgrees(s.fe.inst, i);
    FieldsAgree(s.fe.inst);
    OperandIsDrained(s, Rs1(s.fe.inst));
    OperandIsDrained(s, Rs2(s.fe.inst));
  }

  lemma StageControl(s: State, a: Arch, i: Instr)
    requires Fetched(s, a, i)
    ensures CorrectControl(StageOf(s), a, i)
  {
    hide StageOf, Decodes, X.Perform, RegsNext, Row, Holds, Get, WordAddress, X.StoreLanes, X.ByteEnables,
      Memory.StType, Rd, Rs1, Rs2, CsrField, ImmI, ImmS, ImmB, ImmU, ImmJ;
    var w := s.fe.inst;
    StageUnfolds(s, a, i);
    OperandsAreFields(w, i);
    TakenAgrees(w, i, a.pc, Get(a.regs, Rs1(w)), Get(a.regs, Rs2(w)));
    RequestAgrees(w, i, a.pc, Get(a.regs, Rs1(w)), Get(a.regs, Rs2(w)));
  }

  lemma ValuesFollow(g: Stage, a: Arch, i: Instr, w: Word)
    requires Operands(w, i) && g.f == X.Fields(Rs1(w), Rs2(w), Rd(w), CsrField(w)) && g.x.rs1r == Get(a.regs, Rs1(w))
    requires Computes(i) ==> g.x.aluOut == AluResult(i, a.pc, Get(a.regs, Rs1(w)), Get(a.regs, Rs2(w)))
    ensures CorrectValues(g, a, i)
  {
    hide Compute, Plus, Get, Rd, Rs1, Rs2, CsrField, ImmI, ImmS, ImmB, ImmU, ImmJ;
  }

  lemma StageValues(s: State, a: Arch, i: Instr)
    requires Fetched(s, a, i)
    ensures CorrectValues(StageOf(s), a, i)
  {
    hide StageOf, Decodes, X.Perform, RegsNext, Row, Get, Rd, Rs1, Rs2, CsrField, Operands, CorrectValues, AluResult;
    var w := s.fe.inst;
    StageUnfolds(s, a, i);
    OperandsAreFields(w, i);
    if Computes(i) { ResultAgrees(w, i, a.pc, Get(a.regs, Rs1(w)), Get(a.regs, Rs2(w))); }
    RequestAgrees(w, i, a.pc, Get(a.regs, Rs1(w)), Get(a.regs, Rs2(w)));
    ValuesFollow(StageOf(s), a, i, w);
  }

  lemma StageIsCorrect(s: State, a: Arch, i: Instr)
    requires Fetched(s, a, i)
    ensures Correct(StageOf(s), a, i)
  {
    hide Fetched, StageOf, CorrectValues, CorrectControl;
    StageControl(s, a, i);
    StageValues(s, a, i);
  }

  /* ---- The shape of the control rows ---- */

  /** A row that moves the fetch pc other than by a word, or leaves something other than an ALU
      result to write back, kills the instruction behind it. */
  lemma RowsThatKeepGoing(i: Instr)
    ensures !Row(i).illegal
    ensures !Row(i).instKill ==>
              Row(i).pcSel == PcPlus4 && Row(i).csrType == CsrN && (Row(i).wbEn ==> Row(i).wbSel == WbAlu)
    ensures Row(i).instKill <==> i.Jal? || i.Jalr? || i.Load? || i.Csr? || i.Ecall? || i.Ebreak? || i.Mret?
    ensures Traps(Row(i).csrType) <==> i.Ecall? || i.Ebreak?
    ensures Row(i).csrType == CsrEr <==> i.Mret?
  {
  }

  /* ---- A fetched instruction: the registers of the next clock ---- */

  /** State s holds fetched instruction i, ready to execute in a. */
  ghost predicate Ready(s: State, g: Stage, a: Arch, i: Instr) {
    Coherent(s) && s.genuine && Refines(s, a) && Correct(g, a, i)
    && CanPerform(a, i)
  }

  lemma NothingPending(s: State)
    requires Coherent(s) && s.genuine
    ensures Epc(s) == None
    ensures DrainedPc(s) == s.fe.pc
  {
    EpcIs(s);
  }

  lemma FetchFollows(s: State, g: Stage, a: Arch, i: Instr)
    requires Ready(s, g, a, i)
    ensures FetchNext(s, g) == if g.c.pcSel == PcPlus0 then Plus(a.pc, 4)
                               else if i.Jal? || i.Jalr? || g.x.taken then NextPc(a, i)
                               else Plus(Plus(a.pc, 4), 4)
  {
    NothingPending(s);
    hide Coherent, CanPerform, Plus, Get, Holds, SameBytes, BytesOf, RegsNext, DrainedCsrs;
    EvenTarget(NextPc(a, i));
  }

  lemma EvenTarget(x: Word)
    ensures WordAligned(x) ==> EvenAddress(x) == x
  {
  }

  /* ---- Memory ---- */

  lemma RequestIsMapped(s: State, g: Stage, a: Arch, i: Instr)
    requires Ready(s, g, a, i)
    ensures g.x.req ==> RamSelected(g)
  {
    hide Coherent, Refines, Plus, Get, Holds, Row, Index;
    if g.x.req {
      WindowIsMemory(g.x.aluOut);
      WindowOfWord(g.x.aluOut);
      hide InRam, Present;
    }
  }

  lemma MemoryStep(s: State, g: Stage, a: Arch, i: Instr)
    requires Ready(s, g, a, i)
    ensures SameBytes(BytesOf(WordsNext(s, g)), NextMem(a, i))
  {
    RequestIsMapped(s, g, a, i);
    if i.Store? {
      assert Accessible(g.x.aluOut, i.width);
      hide Coherent, Plus, Get, Holds, Row, CanPerform, SameBytes, BytesOf, InRam,
        Accessible, StoreValue, WriteWord, WordAddress, X.StoreLanes, X.ByteEnables;
      StoreRefines(s.words, a.mem, g.x.aluOut, i.width, Get(a.regs, i.rs2), g.x.wdata, g.x.be);
    }
  }

  /* ---- The invariant survives ---- */

  lemma PlusFourAligned(a: Word)
    ensures WordAligned(a) ==> WordAligned(Plus(a, 4))
  {
  }

  lemma WordAddressAligned(a: Word)
    ensures WordAligned(WordAddress(a))
  {
  }

  lemma FetchAligned(s: State, g: Stage, a: Arch, i: Instr)
    requires Ready(s, g, a, i)
    ensures WordAligned(FetchNext(s, g))
  {
    FetchFollows(s, g, a, i);
    PlusFourAligned(a.pc);
    PlusFourAligned(Plus(a.pc, 4));
    RowsThatKeepGoing(i);
    hide Coherent, Refines, Plus, Get, Holds, Row, WordAligned, FetchNext;
  }

  lemma StaysQuiet(s: State, g: Stage, a: Arch, i: Instr)
    requires Ready(s, g, a, i)
    ensures Quiet(Clock(s, g))
  {
    FetchAligned(s, g, a, i);
    RequestIsMapped(s, g, a, i);
    RowsThatKeepGoing(i);
    WordAddressAligned(g.x.aluOut);
    hide Refines, Plus, Get, Holds, Row, WordAligned, WordAddress, FetchNext, CanPerform, Index, WordsNext,
      RegsNext, CsrNext, MachineMode, InStep;
  }

  lemma WrittenKeepsMachine(h: CsrRegs, a: bv12, v: Word)
    ensures Written(h, a, v).m.priv == h.m.priv
    ensures WordAligned(h.m.mepc) ==> WordAligned(Written(h, a, v).m.mepc)
  {
    RoundDown(v);
    WordAddressAligned(v);
    hide WordAligned, WordAddress, Slice;
  }

  /** A committed CSR state keeps machine mode and an aligned mepc. */
  lemma CommitKeepsMachine(s: State)
    requires Quiet(s) && MachineMode(s)
    ensures Commit(s.csr, CsrInput(s)).m.priv == MACHINE
    ensures WordAligned(Commit(s.csr, CsrInput(s)).m.mepc)
  {
    ExceptionIsTrap(s);
    RoundDown(s.ew.pc);
    WordAddressAligned(s.ew.pc);
    WrittenKeepsMachine(s.csr, s.ew.csr, WriteData(s.csr, CsrInput(s)));
    hide Quiet, Exception, WordAligned, WordAddress, WriteData, Written, Cause;
  }

  lemma StaysMachine(s: State, g: Stage, a: Arch, i: Instr)
    requires Ready(s, g, a, i)
    ensures MachineMode(Clock(s, g))
  {
    hide Ready, Clock, Coherent, Correct, CanPerform, Permitted, WordAligned, Row, Commit, CsrInput, RegsNext;
    ReadyParts(s, g, a, i);
    MachineNow(s);
    RedirectAllowed(s, g, a, i);
    RowsThatKeepGoing(i);
    PcAfter(s, g);
  }

  /** A trap goes to an aligned handler and a return to machine mode. */
  lemma RedirectAllowed(s: State, g: Stage, a: Arch, i: Instr)
    requires Ready(s, g, a, i)
    ensures i.Ecall? || i.Ebreak? ==> WordAligned(a.csrs.mtvec)
    ensures i.Mret? ==> a.csrs.mpp == MACHINE
  {
    hide Coherent, Refines, Correct, WordAligned, Holds, Get, Plus;
  }

  lemma PlusTwice(a: Word)
    ensures Plus(Plus(a, 4), 4) == Plus(a, 8)
  {
  }

  lemma OnlyStoresWrite(s: State, g: Stage, a: Arch, i: Instr)
    requires Correct(g, a, i) && !i.Store?
    ensures WordsNext(s, g) == s.words
  {
    hide CorrectValues, Holds, Get, WordAddress;
  }

  /** Only a row that goes on to the next word writes to memory. */
  lemma FlushedOrNot(s: State, g: Stage, a: Arch, i: Instr)
    requires Ready(s, g, a, i)
    ensures Flush(s, g) <==> P.Refetches(a, i)
    ensures Flush(s, g) ==> WordsNext(s, g) == s.words
    ensures !Flush(s, g) ==>
              FetchNext(s, g) == Plus(a.pc, 8) && g.c.csrType == CsrN && (g.c.wbEn ==> g.c.wbSel == WbAlu)
  {
    hide Ready, WordsNext, FetchNext, Plus, Coherent, Correct, CanPerform, Permitted, WordAligned, RegsNext,
      Commit, CsrInput, Row, Epc, Holds, Get;
    ReadyParts(s, g, a, i);
    NothingPending(s);
    RowsThatKeepGoing(i);
    BranchTaken(g, a, i);
    FetchFollows(s, g, a, i);
    PlusTwice(a.pc);
    if !i.Store? { OnlyStoresWrite(s, g, a, i); }
  }

  lemma StaysInStep(s: State, g: Stage, a: Arch, i: Instr)
    requires Ready(s, g, a, i)
    ensures InStep(Clock(s, g))
  {
    hide Ready, WordsNext, FetchNext, Index, Plus, Quiet, MachineMode, Correct, CanPerform, Permitted,
      WordAligned, RegsNext, Commit, CsrInput, Row, Epc, Flush;
    ReadyParts(s, g, a, i);
    PcBehind(s);
    PlusTwice(a.pc);
    FlushedOrNot(s, g, a, i);
  }

  lemma StaysCoherent(s: State, g: Stage, a: Arch, i: Instr)
    requires Ready(s, g, a, i)
    ensures Coherent(Clock(s, g))
  {
    StaysQuiet(s, g, a, i);
    StaysMachine(s, g, a, i);
    StaysInStep(s, g, a, i);
    hide Quiet, MachineMode, InStep, CanPerform, Correct, WbValue, FetchNext, WordsNext;
  }

  /* ---- One instruction is performed ---- */

  lemma ReadyParts(s: State, g: Stage, a: Arch, i: Instr)
    requires Ready(s, g, a, i)
    ensures Coherent(s) && s.genuine && Correct(g, a, i) && CanPerform(a, i) && Permitted(a, i) && WordAligned(a.pc)
    ensures a.pc == s.fe.pc && a.regs == RegsNext(s) && a.csrs == Commit(s.csr, CsrInput(s)).m
    ensures g.c == Row(i)
  {
    hide Coherent, CorrectValues, SameBytes, Permitted, WordAligned, Row, Commit, CsrInput, RegsNext, Epc;
    ReadyCoherent(s, g, a, i);
    NothingPending(s);
  }

  lemma ReadyCoherent(s: State, g: Stage, a: Arch, i: Instr)
    requires Ready(s, g, a, i)
    ensures Coherent(s) && s.genuine
  {
    hide Coherent, Refines, Correct, CanPerform;
  }

  /** The drained pc of the next clock: nothing can redirect a row that goes on. */
  lemma PcAfter(s: State, g: Stage)
    ensures var s' := Clock(s, g);
            DrainedPc(s') == match Epc(s')
                             case Some(target) => target
                             case None => if s'.genuine then s.pc else FetchNext(s, g)
    ensures Clock(s, g).genuine <==> !Flush(s, g)
    ensures Clock(s, g).csr.m == Commit(s.csr, CsrInput(s)).m && Clock(s, g).ew.csrType == g.c.csrType
  {
    hide FetchNext, Flush, Epc, Commit, CsrInput;
  }

  lemma PcStep(s: State, g: Stage, a: Arch, i: Instr)
    requires Ready(s, g, a, i)
    ensures DrainedPc(Clock(s, g)) == NextPc(a, i)
  {
    hide Ready, Clock, Coherent, Correct, CanPerform, Permitted, WordAligned, Row, Commit, CsrInput, RegsNext, Epc,
      FetchNext, Quiet, MachineMode, Plus, Get, Holds, EvenAddress, DrainedPc;
    ReadyParts(s, g, a, i);
    NothingPending(s);
    FetchFollows(s, g, a, i);
    StaysQuiet(s, g, a, i);
    StaysMachine(s, g, a, i);
    EpcIs(Clock(s, g));
    RowsThatKeepGoing(i);
    PcAfter(s, g);
    BranchTaken(g, a, i);
    PcBehind(s);
  }

  lemma PcBehind(s: State)
    requires Coherent(s) && s.genuine
    ensures s.pc == Plus(s.fe.pc, 4)
  {
    hide Quiet, MachineMode, Plus;
  }

  lemma BranchTaken(g: Stage, a: Arch, i: Instr)
    requires Correct(g, a, i)
    ensures g.x.taken <==> i.Branch? && Holds(i.cond, Get(a.regs, i.rs1), Get(a.regs, i.rs2))
    ensures Row(i).pcSel == PcPlus0 <==> i.Load? || i.Csr? || i.Ecall? || i.Ebreak?
  {
    hide CorrectValues, Holds, Get;
  }

  lemma LoadedValue(s: State, g: Stage, a: Arch, i: Instr)
    requires Ready(s, g, a, i) && i.Load?
    ensures X.LoadLanes(g.c.ldType, g.x.aluOut, Loaded(Clock(s, g)))
            == LoadValue(a.mem, Plus(Get(a.regs, i.rs1), i.imm), i.width, i.unsigned)
  {
    RequestIsMapped(s, g, a, i);
    assert Accessible(g.x.aluOut, i.width);
    hide Plus, Get, Holds, WordAligned, FetchNext, WordsNext, RegsNext, Commit, Quiet,
      MachineMode, InStep, SameBytes, BytesOf, X.LoadLanes, LoadValue, InRam, Accessible;
    LoadRefines(s.words, a.mem, g.x.aluOut, i.width, i.unsigned);
  }

  lemma DestinationIs(g: Stage, a: Arch, i: Instr)
    requires Correct(g, a, i)
    ensures g.c.wbEn <==> WritesRd(i)
    ensures WritesRd(i) ==> g.f.rd == i.rd
  {
    hide Plus, Get, Holds, WordAddress, Compute, X.StoreLanes, X.ByteEnables;
  }

  /** What the next clock's write-back stage will put in a register. */
  lemma WbAfter(s: State, g: Stage)
    ensures var s' := Clock(s, g);
            WbValue(s') == match g.c.wbSel
                           case WbAlu => g.x.aluOut
                           case WbMem => X.LoadLanes(g.c.ldType, g.x.aluOut, Loaded(s'))
                           case WbPc4 => Plus(s.fe.pc, 4)
                           case WbCsr => Rdata(s'.csr, g.f.csr)
    ensures RegsNext(Clock(s, g))
            == if g.c.wbEn && g.f.rd != 0 then RegsNext(s)[g.f.rd := WbValue(Clock(s, g))] else RegsNext(s)
    ensures Clock(s, g).csr.m == Commit(s.csr, CsrInput(s)).m
  {
    hide FetchNext, Flush, Epc, Commit, CsrInput, X.LoadLanes, Loaded, Rdata, Plus;
  }

  /** The row selects the value the instruction puts in rd. */
  lemma RowSelects(g: Stage, a: Arch, i: Instr)
    requires Correct(g, a, i) && WritesRd(i)
    ensures g.c.wbSel == if i.Load? then WbMem else if i.Csr? then WbCsr else if i.Jal? || i.Jalr? then WbPc4 else WbAlu
    ensures g.c.wbSel == WbAlu ==> g.x.aluOut == Result(a, i)
    ensures i.Csr? ==> g.f.csr == i.csr
  {
    hide Plus, Get, Holds, WordAddress, Compute, X.StoreLanes, X.ByteEnables, LoadValue, ReadCsr;
  }

  lemma WrittenBack(s: State, g: Stage, a: Arch, i: Instr)
    requires Ready(s, g, a, i) && WritesRd(i)
    ensures WbValue(Clock(s, g)) == Result(a, i)
  {
    hide Ready, Clock, Coherent, Correct, CanPerform, Row, Commit, CsrInput, RegsNext, WbValue, Loaded,
      X.LoadLanes, LoadValue, Rdata, ReadCsr, Plus, Get, Compute, ReadWriteCsr, Accessible;
    ReadyParts(s, g, a, i);
    WbAfter(s, g);
    RowSelects(g, a, i);
    if i.Load? { LoadedValue(s, g, a, i); }
    if i.Csr? { RdataAgrees(Clock(s, g).csr, i.csr); }
  }

  lemma RegsStep(s: State, g: Stage, a: Arch, i: Instr)
    requires Ready(s, g, a, i)
    ensures RegsNext(Clock(s, g)) == NextRegs(a, i)
  {
    hide Ready, Clock, Coherent, Correct, CanPerform, Permitted, Row, Commit, CsrInput, RegsNext, WbValue, Loaded,
      X.LoadLanes, Rdata, Plus, Result, WritesRd;
    ReadyParts(s, g, a, i);
    WbAfter(s, g);
    DestinationIs(g, a, i);
    if WritesRd(i) { WrittenBack(s, g, a, i); }
  }

  /** What the CSR unit is asked to do one clock after instruction i executes. */
  lemma CsrRequest(s: State, g: Stage, a: Arch, i: Instr)
    requires Ready(s, g, a, i)
    ensures var h, c := Clock(s, g).csr, CsrInput(Clock(s, g));
            h.m == a.csrs && c.csrType == Row(i).csrType && c.pc == a.pc
            && !Fault(c.imem) && !Fault(c.dmem) && !Misaligned(c.imem) && !Misaligned(c.dmem)
            && (i.Csr? ==> c.csr == i.csr && c.rs1 == i.rs1 && c.wdata == Get(a.regs, i.rs1))
            && (Exception(h, c) <==> i.Ecall? || i.Ebreak?)
  {
    NothingPending(s);
    StaysQuiet(s, g, a, i);
    StaysMachine(s, g, a, i);
    ExceptionIsTrap(Clock(s, g));
    RowsThatKeepGoing(i);
    hide InStep, Plus, Get, Holds, FetchNext, WordsNext, RegsNext, SameBytes, BytesOf, Exception,
      Commit, WordAddress, Index, Row, CanPerform;
  }

  lemma MachineNow(s: State)
    requires Coherent(s)
    ensures Commit(s.csr, CsrInput(s)).m.priv == MACHINE && WordAligned(Commit(s.csr, CsrInput(s)).m.mepc)
  {
    hide Quiet, MachineMode, InStep, Commit, CsrInput, WordAligned;
    CommitKeepsMachine(s);
  }

  lemma CsrTypeOfRow(i: Instr)
    ensures Row(i).csrType == match i
                              case Csr(kind, _, _, _) => CsrTypeOf(kind)
                              case Ecall => CsrEc
                              case Ebreak => CsrEb
                              case Mret => CsrEr
                              case _ => CsrN
  {
  }

  lemma CsrsStep(s: State, g: Stage, a: Arch, i: Instr)
    requires Ready(s, g, a, i)
    ensures DrainedCsrs(Clock(s, g)) == NextCsrs(a, i)
  {
    hide Ready, Clock, CsrInput, Coherent, Correct, CanPerform, Row, RegsNext, Exception, Commit, NextCsrs,
      WordAligned, Get, Fault, Misaligned, ReadWriteCsr;
    ReadyParts(s, g, a, i);
    MachineNow(s);
    CsrRequest(s, g, a, i);
    CsrTypeOfRow(i);
    CommitFollows(Clock(s, g).csr, CsrInput(Clock(s, g)), a, i);
  }

  /** What the CSR unit sees of instruction i, with nothing else wrong. */
  ghost predicate Asked(h: CsrRegs, c: CsrIn, a: Arch, i: Instr) {
    h.m == a.csrs && h.m.priv == MACHINE && WordAligned(h.m.mepc) && c.pc == a.pc && WordAligned(a.pc)
    && !Fault(c.imem) && !Fault(c.dmem) && !Misaligned(c.imem) && !Misaligned(c.dmem)
    && (Exception(h, c) <==> i.Ecall? || i.Ebreak?)
  }

  lemma TrapFollows(h: CsrRegs, c: CsrIn, a: Arch, i: Instr)
    requires Asked(h, c, a, i) && (i.Ecall? || i.Ebreak?) && c.csrType == (if i.Ecall? then CsrEc else CsrEb)
    ensures Commit(h, c).m == NextCsrs(a, i)
  {
    hide Exception, Commit, Trap, WordAligned, Fault, Misaligned;
    CommitTraps(h, c);
  }

  lemma ReturnFollows(h: CsrRegs, c: CsrIn, a: Arch, i: Instr)
    requires Asked(h, c, a, i) && i.Mret? && c.csrType == CsrEr
    ensures Commit(h, c).m == NextCsrs(a, i)
  {
    hide Exception, Commit, Return, WordAligned, Fault, Misaligned;
    CommitReturns(h, c);
  }

  lemma AccessFollows(h: CsrRegs, c: CsrIn, a: Arch, i: Instr)
    requires Asked(h, c, a, i) && i.Csr? && c.csrType == CsrTypeOf(i.kind)
    requires c.csr == i.csr && c.rs1 == i.rs1 && c.wdata == Get(a.regs, i.rs1) && ReadWriteCsr(i.csr)
    ensures Commit(h, c).m == NextCsrs(a, i)
  {
    hide Exception, Commit, CsrEffect, WordAligned, Get, Fault, Misaligned, ReadWriteCsr;
    ZeroIsZero(a.regs, i.rs1);
    CommitWrites(h, c, i.kind);
  }

  lemma OthersFollow(h: CsrRegs, c: CsrIn, a: Arch, i: Instr)
    requires Asked(h, c, a, i) && !i.Ecall? && !i.Ebreak? && !i.Mret? && !i.Csr? && c.csrType == CsrN
    ensures Commit(h, c).m == NextCsrs(a, i)
  {
    hide Exception, Commit, WordAligned, Fault, Misaligned;
    CommitNothing(h, c);
  }

  /** The CSR unit commits what instruction i does to the CSRs. */
  lemma CommitFollows(h: CsrRegs, c: CsrIn, a: Arch, i: Instr)
    requires Asked(h, c, a, i)
    requires c.csrType == match i
                          case Csr(kind, _, _, _) => CsrTypeOf(kind)
                          case Ecall => CsrEc
                          case Ebreak => CsrEb
                          case Mret => CsrEr
                          case _ => CsrN
    requires i.Csr? ==> c.csr == i.csr && c.rs1 == i.rs1 && c.wdata == Get(a.regs, i.rs1) && ReadWriteCsr(i.csr)
    ensures Commit(h, c).m == NextCsrs(a, i)
  {
    hide Asked, Commit, NextCsrs, Get, ReadWriteCsr;
    if i.Ecall? || i.Ebreak? { TrapFollows(h, c, a, i); }
    else if i.Mret? { ReturnFollows(h, c, a, i); }
    else if i.Csr? { AccessFollows(h, c, a, i); }
    else { OthersFollow(h, c, a, i); }
  }

  lemma ZeroIsZero(regs: Regs, r: RegIndex)
    ensures r == 0 ==> Get(regs, r) == 0
  {
  }

  /** A fetched instruction is performed: exactly one step of the instruction set, whatever memory holds
      at its address by now. */
  lemma PerformsOne(s: State, a: Arch, i: Instr)
    requires Coherent(s) && s.genuine && Refines(s, a) && Decodes(s.fe.inst, i) && CanPerform(a, i)
    ensures Coherent(Next(s)) && Refines(Next(s), Execute(a, i))
  {
    hide Coherent, Clock, StageOf, SameBytes, NextPc, NextRegs, NextCsrs, NextMem, DrainedPc,
      DrainedCsrs, RegsNext, WordsNext, Correct, BytesOf, CanPerform, Decodes;
    var g := StageOf(s);
    StageReady(s, a, i);
    StaysCoherent(s, g, a, i);
    PcStep(s, g, a, i);
    RegsStep(s, g, a, i);
    CsrsStep(s, g, a, i);
    MemoryStep(s, g, a, i);
    WordsAfter(s, g);
  }

  lemma StageReady(s: State, a: Arch, i: Instr)
    requires Coherent(s) && s.genuine && Refines(s, a) && Decodes(s.fe.inst, i) && CanPerform(a, i)
    ensures Ready(s, StageOf(s), a, i)
  {
    hide Quiet, MachineMode, StageOf, SameBytes, BytesOf, RegsNext, DrainedCsrs, Epc, Correct, CanPerform, Decodes;
    NothingPending(s);
    StageIsCorrect(s, a, i);
  }

  lemma WordsAfter(s: State, g: Stage)
    ensures Clock(s, g).words == WordsNext(s, g)
  {
    hide WordsNext, FetchNext, Flush, Epc, CsrInput, RegsNext;
  }

  /* ---- A bubble performs nothing ---- */

  ghost predicate Bubble(g: Stage) {
    g.c == AluRow(ARs1, BImm, ImmSelI, AluAdd) && g.f.rd == 0 && !g.x.taken && !g.x.req && WordAligned(g.x.addr)
  }

  lemma NopIsBubble(s: State)
    requires s.fe.inst == NOP
    ensures Bubble(StageOf(s))
  {
    hide Control.Decode, Operand, X.Immediate, X.Alu, X.StoreLanes, X.ByteEnables, WordAddress, WordAligned, X.FieldsOf;
    NopRow();
    WordAddressAligned(StageOf(s).x.aluOut);
  }

  lemma EpcAligned(s: State)
    requires Quiet(s) && MachineMode(s)
    ensures Epc(s).Some? ==> WordAligned(Epc(s).value)
  {
    EpcIs(s);
  }

  lemma BubbleClock(s: State, g: Stage)
    requires Bubble(g) && !s.genuine
    ensures var s' := Clock(s, g);
            FetchNext(s, g) == (if Epc(s).Some? then Epc(s).value else Plus(s.pc, 4))
            && (Flush(s, g) <==> Epc(s).Some?) && WordsNext(s, g) == s.words
            && RegsNext(s') == RegsNext(s) && s'.csr.m == Commit(s.csr, CsrInput(s)).m
            && s'.ew.csrType == CsrN && !s'.ew.illegal && !s'.ew.imemErr && !s'.hostResp && !s'.ramResp
  {
    hide Epc, Commit, CsrInput, Plus, Index, WordAligned, Rdata, X.LoadLanes;
  }

  lemma BubbleStaysQuiet(s: State, g: Stage)
    requires Bubble(g) && !s.genuine && Quiet(s) && MachineMode(s)
    ensures Quiet(Clock(s, g)) && MachineMode(Clock(s, g))
  {
    hide Epc, Commit, CsrInput, Plus, Index, WordAligned, WordsNext, RegsNext, FetchNext, Flush;
    BubbleClock(s, g);
    EpcAligned(s);
    PlusFourAligned(s.pc);
    CommitKeepsMachine(s);
  }

  lemma BubbleStaysInStep(s: State, g: Stage)
    requires Bubble(g) && !s.genuine && InStep(s)
    ensures InStep(Clock(s, g))
  {
    hide Epc, Commit, CsrInput, Plus, Index, WordAligned, WordsNext, RegsNext, FetchNext, Flush;
    BubbleClock(s, g);
  }

  lemma BubbleDrains(s: State, g: Stage)
    requires Bubble(g) && !s.genuine && Quiet(s) && MachineMode(s)
    ensures DrainedPc(Clock(s, g)) == DrainedPc(s) && DrainedCsrs(Clock(s, g)) == DrainedCsrs(s)
  {
    hide Clock, Quiet, MachineMode, Epc, Commit, CsrInput, Plus, WordsNext, RegsNext, FetchNext, Flush, Exception;
    var s' := Clock(s, g);
    BubbleClock(s, g);
    BubbleStaysQuiet(s, g);
    EpcIs(s');
    ExceptionIsTrap(s');
    PcAfter(s, g);
    InputAfter(s, g);
    CommitNothing(s'.csr, CsrInput(s'));
  }

  lemma InputAfter(s: State, g: Stage)
    ensures CsrInput(Clock(s, g)).csrType == g.c.csrType
  {
    hide Epc, Commit, WordsNext, RegsNext, FetchNext, Flush, DataPort;
  }

  /** A clock with a bubble in execute leaves the architectural state as it is. */
  lemma BubbleStep(s: State, a: Arch)
    requires Coherent(s) && !s.genuine && Refines(s, a)
    ensures Coherent(Next(s)) && Refines(Next(s), a)
  {
    hide Clock, StageOf, Quiet, MachineMode, InStep, SameBytes, BytesOf, DrainedPc, DrainedCsrs, RegsNext, WordsNext,
      FetchNext, Flush, Bubble;
    var g := StageOf(s);
    NotGenuineIsNop(s);
    NopIsBubble(s);
    BubbleClock(s, g);
    BubbleStaysQuiet(s, g);
    BubbleStaysInStep(s, g);
    BubbleDrains(s, g);
    WordsAfter(s, g);
    RegsAfter(s, g);
    ZeroStays(s);
  }

  lemma NotGenuineIsNop(s: State)
    requires InStep(s) && !s.genuine
    ensures s.fe.inst == NOP
  {
    hide Index;
  }

  lemma RegsAfter(s: State, g: Stage)
    ensures Clock(s, g).regs == RegsNext(s)
  {
    hide WordsNext, FetchNext, Flush, Epc, CsrInput, RegsNext;
  }

  lemma ZeroStays(s: State)
    requires s.regs[0] == 0
    ensures RegsNext(s)[0] == 0
  {
    hide WbValue;
  }

  /* ---- The words already read ---- */

  /** The fetch registers hold the words the prefetching machine has read. */
  ghost predicate HoldsAhead(s: State, q: P.Prefetched) {
    if s.genuine then
      (Present(q.arch.pc) ==> s.fe.inst == q.word) && (Present(Plus(q.arch.pc, 4)) ==> s.irdata == q.next)
    else q == P.Refill(q.arch)
  }

  /** The state of the prefetching machine a pipeline state stands for. */
  ghost predicate RefinesAhead(s: State, q: P.Prefetched) {
    Refines(s, q.arch) && HoldsAhead(s, q)
  }

  /** What a clock puts in the fetch registers: memory as it was before this clock's store. */
  lemma FetchAfter(s: State, g: Stage)
    ensures Clock(s, g).fe.inst == if Flush(s, g) then NOP else s.irdata
    ensures Clock(s, g).irdata == s.words[Index(FetchNext(s, g))]
    ensures Clock(s, g).genuine <==> !Flush(s, g)
  {
    hide WordsNext, FetchNext, Flush, Epc, CsrInput, RegsNext, Index;
  }

  lemma WordsAligned(pc: Word)
    requires WordAligned(pc)
    ensures WordAligned(Plus(pc, 4)) && WordAligned(Plus(pc, 8))
  {
  }

  /** A word of the RAM is what memory reads at an aligned address. */
  lemma WordRead(s: State, a: Arch, b: Word)
    requires Refines(s, a) && WordAligned(b) && Present(b)
    ensures s.words[Index(b)] == ReadFull(a.mem, b)
  {
    hide Index, ReadFull, SameBytes, BytesOf, InRam, Present, WordAligned, DrainedPc, DrainedCsrs, RegsNext;
    WindowIsMemory(b);
    ReadWord(s.words, a.mem, b);
  }

  lemma HoldsAfter(s: State, g: Stage, q: P.Prefetched)
    requires P.CanStepAhead(q) && Ready(s, g, q.arch, P.Ahead(q)) && HoldsAhead(s, q)
    ensures HoldsAhead(Clock(s, g), P.StepAhead(q))
  {
    hide Ready, Clock, Rv32i.Decode, CanPerform, Permitted, ReadFull, Index, Plus, Flush, FetchNext, Present, Refines,
      Coherent,
      Correct, WordAligned, NextRegs, NextCsrs, NextMem, RegsNext, Commit, CsrInput, Row;
    var a, i := q.arch, P.Ahead(q);
    ReadyParts(s, g, a, i);
    ReadyRefines(s, g, a, i);
    FlushedOrNot(s, g, a, i);
    FetchAfter(s, g);
    PlusTwice(a.pc);
    P.FallsThrough(a, i);
    WordsAligned(a.pc);
    if Present(Plus(a.pc, 8)) { WordRead(s, a, Plus(a.pc, 8)); }
  }

  lemma ReadyRefines(s: State, g: Stage, a: Arch, i: Instr)
    requires Ready(s, g, a, i)
    ensures Refines(s, a)
  {
    hide Coherent, Refines, Correct, CanPerform;
  }

  /** With a fetched instruction in execute, one clock is one step of the prefetching machine: for every
      program, stores onto the words behind them included. */
  lemma GenuineStep(s: State, q: P.Prefetched)
    requires Coherent(s) && s.genuine && RefinesAhead(s, q) && P.CanStepAhead(q)
    ensures Coherent(Next(s)) && RefinesAhead(Next(s), P.StepAhead(q))
  {
    hide Coherent, Refines, Clock, StageOf, Rv32i.Decode, Permitted, WordAligned, NextPc, NextRegs, NextCsrs, NextMem,
      ReadFull, P.Refetches;
    PerformsOne(s, q.arch, P.Ahead(q));
    StageReady(s, q.arch, P.Ahead(q));
    HoldsAfter(s, StageOf(s), q);
  }

  /** With a bubble in execute nothing is performed, and the words read are still what memory holds. */
  lemma BubbleAhead(s: State, q: P.Prefetched)
    requires Coherent(s) && !s.genuine && RefinesAhead(s, q)
    ensures Coherent(Next(s)) && RefinesAhead(Next(s), q)
  {
    hide Clock, StageOf, Quiet, MachineMode, ReadFull, Index, Plus, FetchNext, Present, Refines, WordAligned, Bubble,
      Flush, Epc;
    var g := StageOf(s);
    BubbleStep(s, q.arch);
    NopIsBubble(s);
    BubbleClock(s, g);
    FetchAfter(s, g);
    FetchIsAligned(s);
    WordsAligned(s.pc);
    if Next(s).genuine {
      PcOfBubble(s, q.arch);
      if Present(s.pc) { WordRead(s, q.arch, s.pc); }
      if Present(Plus(s.pc, 4)) { WordRead(s, q.arch, Plus(s.pc, 4)); }
    }
  }

  lemma FetchIsAligned(s: State)
    requires Coherent(s)
    ensures WordAligned(s.pc)
  {
    hide MachineMode, InStep, WordAligned;
  }

  lemma PcOfBubble(s: State, a: Arch)
    requires !s.genuine && Refines(s, a) && Epc(s) == None
    ensures a.pc == s.pc
  {
    hide SameBytes, BytesOf, RegsNext, DrainedCsrs, Epc;
  }

  lemma FenceIRow(w: Word)
    requires Matches(w, FENCEI)
    ensures Control.Decode(w) == Row(Rv32i.Fence)
  {
    hide Control.Decode, Control.DecodeMemory, Control.DecodeArithmetic, Control.DecodeRegister, Matches;
    FenceIOpcode(w);
    SkipToMemory(w);
    SkipToArithmetic(w);
    SkipToRegister(w);
    SkipToSystem(w);
  }

  lemma FenceIOpcode(w: Word)
    requires Matches(w, FENCEI)
    ensures w & 0x7f == 0x0f
    ensures Control.DecodeSystem(w) == Row(Rv32i.Fence)
  {
  }
}
