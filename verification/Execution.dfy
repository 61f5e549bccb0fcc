/** Whole runs of the pipeline: what they compute, and in exactly how many clocks. */
module Execution {
  import opened Bits
  import opened Control
  import opened CsrUnit
  import opened Memory
  import opened Rv32i
  import opened Pipeline
  import opened Prefetch
  import opened Refinement
  import opened Datapath

  /** Clocks an instruction occupies: one, one more to refill the pipeline behind a jump, a taken
      branch, a load or a CSR access, and a third for a trap or return. */
  ghost function Cycles(a: Arch, i: Instr): nat {
    if i.Ecall? || i.Ebreak? || i.Mret? then 3
    else if i.Jal? || i.Jalr? || i.Load? || i.Csr? then 2
    else if i.Branch? && Holds(i.cond, Get(a.regs, i.rs1), Get(a.regs, i.rs2)) then 2
    else 1
  }

  ghost function TotalCycles(q: Prefetched, n: nat): nat
    requires RunsAhead(q, n)
    decreases n
  {
    hide StepAhead;
    if n == 0 then 0 else Cycles(q.arch, Ahead(q)) + TotalCycles(StepAhead(q), n - 1)
  }

  /* ---- Runs of the pipeline ---- */

  function Run(s: State, clocks: nat): State
    decreases clocks
  {
    if clocks == 0 then s else Run(Next(s), clocks - 1)
  }

  /** How many of the first clocks perform an instruction. */
  function Performed(s: State, clocks: nat): nat
    decreases clocks
  {
    if clocks == 0 then 0 else (if s.genuine then 1 else 0) + Performed(Next(s), clocks - 1)
  }

  /** The bubbles still ahead of the next instruction. */
  function Debt(s: State): nat {
    if s.genuine then 0 else if Epc(s).Some? then 2 else 1
  }

  /* ---- Where runs begin ---- */

  const BOOT: Word := 0x10_0000

  /** The first word fetched, a bubble in execute and nothing behind it: where every run may begin. */
  function Started(regs: Regs, csr: CsrRegs, words: Words): State {
    State(BOOT, Fe(BOOT, NOP, true, BOOT),
          Ew(false, 0, true, BOOT, true, false, WbAlu, false, LdNone, CsrN, false, 0, BOOT, 0, 0, 0, 0),
          false, regs, csr, words, words[Index(BOOT)], true, 0, false, false)
  }

  lemma StartsCoherent(regs: Regs, csr: CsrRegs, words: Words)
    requires regs[0] == 0 && csr.m.priv == MACHINE && WordAligned(csr.m.mepc)
    ensures Coherent(Started(regs, csr, words))
    ensures RefinesAhead(Started(regs, csr, words), Refill(Arch(BOOT, regs, csr.m, BytesOf(words))))
    ensures Debt(Started(regs, csr, words)) == 1
  {
    hide Index, BytesOf;
  }

  /** JAL to itself. */
  const SPIN: Word := 0x6f

  lemma SpinDecodes()
    ensures Rv32i.Decode(SPIN) == Some(Jal(0, 0)) && Plus(BOOT, 0) == BOOT
    ensures WordAligned(BOOT) && Present(BOOT)
  {
  }

  /** Runs of any length exist: a program that jumps to itself. */
  lemma {:induction false} SpinsForever(a: Arch, n: nat)
    requires a.pc == BOOT && ReadFull(a.mem, BOOT) == SPIN
    ensures RunsAhead(Refill(a), n) && AfterAhead(Refill(a), n).arch == a && TotalCycles(Refill(a), n) == 2 * n
    decreases n
  {
    hide Rv32i.Decode, ReadFull, Plus, WordAligned, Present;
    if n > 0 {
      SpinDecodes();
      assert Ahead(Refill(a)) == Jal(0, 0);
      assert StepAhead(Refill(a)) == Refill(a);
      SpinsForever(a, n - 1);
    }
  }

  /* ---- One clock ---- */

  lemma DebtAfterBubble(s: State)
    requires Coherent(s) && !s.genuine
    ensures Debt(Next(s)) == Debt(s) - 1
  {
    hide Clock, StageOf, Quiet, MachineMode, InStep, RegsNext, WordsNext, FetchNext, Flush, Bubble, Epc, Exception;
    var g := StageOf(s);
    NotGenuineIsNop(s);
    NopIsBubble(s);
    BubbleClock(s, g);
    BubbleStaysQuiet(s, g);
    EpcIs(Next(s));
    PcAfter(s, g);
  }

  lemma FlushIs(s: State, g: Stage, a: Arch, i: Instr)
    requires Epc(s) == None && Correct(g, a, i)
    ensures Flush(s, g) <==> Cycles(a, i) > 1
  {
    hide Row, CorrectValues, Holds, Get, Epc;
    RowsThatKeepGoing(i);
  }

  lemma DebtAfterInstruction(s: State, g: Stage, a: Arch, i: Instr)
    requires Ready(s, g, a, i)
    ensures Debt(Clock(s, g)) == Cycles(a, i) - 1
  {
    hide Ready, Clock, Coherent, Correct, CanPerform, Permitted, WordAligned, Row, Commit, CsrInput, RegsNext, Epc,
      FetchNext, Quiet, MachineMode, Flush, Holds, Get, DrainedPc;
    ReadyParts(s, g, a, i);
    NothingPending(s);
    StaysQuiet(s, g, a, i);
    StaysMachine(s, g, a, i);
    EpcIs(Clock(s, g));
    RowsThatKeepGoing(i);
    PcAfter(s, g);
    FlushIs(s, g, a, i);
  }

  lemma DebtAfterGenuine(s: State, q: Prefetched)
    requires Coherent(s) && s.genuine && RefinesAhead(s, q) && CanStepAhead(q)
    ensures Debt(Next(s)) == Cycles(q.arch, Ahead(q)) - 1
  {
    hide Coherent, Refines, Clock, StageOf, Rv32i.Decode, Permitted, Debt, Cycles, WordAligned, NextPc;
    StageReady(s, q.arch, Ahead(q));
    DebtAfterInstruction(s, StageOf(s), q.arch, Ahead(q));
  }

  /* ---- Whole runs ---- */

  /** Safety, for every program: after any number of clocks the pipeline stands for the state the
      prefetching machine reaches after the instructions performed so far. */
  lemma {:induction false} PipelineRefines(s: State, q: Prefetched, clocks: nat)
    requires Coherent(s) && RefinesAhead(s, q)
    requires RunsAhead(q, Performed(s, clocks))
    ensures Coherent(Run(s, clocks))
    ensures RefinesAhead(Run(s, clocks), AfterAhead(q, Performed(s, clocks)))
    decreases clocks
  {
    hide Coherent, RefinesAhead, Next, CanStepAhead, StepAhead;
    if clocks > 0 {
      if s.genuine {
        GenuineStep(s, q);
        PipelineRefines(Next(s), StepAhead(q), clocks - 1);
      } else {
        BubbleAhead(s, q);
        PipelineRefines(Next(s), q, clocks - 1);
      }
    }
  }

  /** Cycle accounting: elapsed clocks are the initial bubbles plus what each instruction costs,
      less the bubbles still owed. */
  lemma {:induction false} ClocksAreAccounted(s: State, q: Prefetched, clocks: nat)
    requires Coherent(s) && RefinesAhead(s, q)
    requires RunsAhead(q, Performed(s, clocks))
    ensures clocks + Debt(Run(s, clocks)) == Debt(s) + TotalCycles(q, Performed(s, clocks))
    decreases clocks
  {
    hide Coherent, RefinesAhead, Next, CanStepAhead, StepAhead, Ahead, Cycles, Epc;
    if clocks > 0 {
      if s.genuine {
        GenuineStep(s, q);
        DebtAfterGenuine(s, q);
        ClocksAreAccounted(Next(s), StepAhead(q), clocks - 1);
      } else {
        BubbleAhead(s, q);
        DebtAfterBubble(s);
        ClocksAreAccounted(Next(s), q, clocks - 1);
      }
    }
  }

  /** Progress: every run of the prefetching machine happens, and is complete after exactly the clocks
      it costs. */
  lemma {:induction false} EveryRunHappens(s: State, q: Prefetched, n: nat)
    requires Coherent(s) && RefinesAhead(s, q) && RunsAhead(q, n)
    ensures Performed(s, Debt(s) + TotalCycles(q, n)) == n
    ensures Coherent(Run(s, Debt(s) + TotalCycles(q, n)))
    ensures RefinesAhead(Run(s, Debt(s) + TotalCycles(q, n)), AfterAhead(q, n))
    ensures Debt(Run(s, Debt(s) + TotalCycles(q, n))) == 0
    decreases n, Debt(s)
  {
    hide Coherent, RefinesAhead, Next, CanStepAhead, StepAhead, Ahead, Cycles, Epc;
    if Debt(s) > 0 {
      BubbleAhead(s, q);
      DebtAfterBubble(s);
      EveryRunHappens(Next(s), q, n);
    } else if n > 0 {
      GenuineStep(s, q);
      DebtAfterGenuine(s, q);
      EveryRunHappens(Next(s), StepAhead(q), n - 1);
    }
  }

  /** So a program that never executes a word overwritten since it was read runs exactly as the plain
      instruction set says. */
  lemma PlainRunHappens(s: State, a: Arch, n: nat)
    requires Coherent(s) && RefinesAhead(s, Refill(a)) && RunsFor(a, n) && UpToDate(Refill(a), n)
    ensures RunsAhead(Refill(a), n)
    ensures Refines(Run(s, Debt(s) + TotalCycles(Refill(a), n)), After(a, n))
  {
    hide Coherent, Refines, CanStepAhead, StepAhead, CanStep, Step, UpToDate, ReadFull, Cycles, Next, Epc;
    AheadIsPlain(Refill(a), n);
    EveryRunHappens(s, Refill(a), n);
  }

  /** No more than two bubbles separate one instruction from the next. */
  lemma NeverStalls(s: State, q: Prefetched)
    requires Coherent(s) && RefinesAhead(s, q) && RunsAhead(q, 1)
    ensures Debt(s) <= 2 && Performed(s, 3) >= 1
  {
    hide Coherent, RefinesAhead, Next, Epc;
    if !s.genuine {
      BubbleAhead(s, q);
      DebtAfterBubble(s);
      if !Next(s).genuine {
        BubbleAhead(Next(s), q);
        DebtAfterBubble(Next(s));
      }
    }
  }

  /* ---- Precise traps ---- */

  /** ECALL, EBREAK and MRET are precise: for two clocks after one executes nothing is performed, and
      the next instruction is the one at the new pc, read afresh, in the state the trap or return left:
      no younger instruction has touched a register, memory or a CSR. */
  lemma TrapIsPrecise(s: State, q: Prefetched)
    requires Coherent(s) && s.genuine && RefinesAhead(s, q) && CanStepAhead(q)
    requires Cycles(q.arch, Ahead(q)) == 3
    ensures !Run(s, 1).genuine && !Run(s, 2).genuine && Run(s, 3).genuine
    ensures Run(s, 3).fe.pc == if Ahead(q).Mret? then q.arch.csrs.mepc else q.arch.csrs.mtvec
    ensures RefinesAhead(Run(s, 3), StepAhead(q)) && StepAhead(q) == Refill(StepAhead(q).arch)
    ensures StepAhead(q).arch.regs == q.arch.regs && StepAhead(q).arch.mem == q.arch.mem
    ensures StepAhead(q).arch.csrs == match Ahead(q)
                                      case Ecall => Trap(q.arch.csrs, q.arch.pc, CAUSE_ECALL_M)
                                      case Ebreak => Trap(q.arch.csrs, q.arch.pc, CAUSE_BREAKPOINT)
                                      case _ => Return(q.arch.csrs)
  {
    hide Coherent, RefinesAhead, Next, Epc, CanStepAhead, StepAhead, Ahead, Cycles, ReadFull;
    TrapEffect(q);
    GenuineStep(s, q);
    DebtAfterGenuine(s, q);
    BubbleAhead(Next(s), StepAhead(q));
    DebtAfterBubble(Next(s));
    BubbleAhead(Next(Next(s)), StepAhead(q));
    DebtAfterBubble(Next(Next(s)));
    RefinesPc(Run(s, 3), StepAhead(q));
  }

  lemma RefinesPc(s: State, q: Prefetched)
    requires Coherent(s) && s.genuine && RefinesAhead(s, q)
    ensures s.fe.pc == q.arch.pc
  {
    hide Coherent, Epc, SameBytes, BytesOf, RegsNext, DrainedCsrs;
    NothingPending(s);
  }

  lemma RefinesCsrs(s: State, q: Prefetched)
    requires RefinesAhead(s, q)
    ensures DrainedCsrs(s) == q.arch.csrs
  {
    hide SameBytes, BytesOf, RegsNext, DrainedCsrs, DrainedPc, HoldsAhead;
  }

  /** What the reference does at a trap or return. */
  lemma TrapEffect(q: Prefetched)
    requires CanStepAhead(q) && Cycles(q.arch, Ahead(q)) == 3
    ensures StepAhead(q) == Refill(StepAhead(q).arch)
    ensures StepAhead(q).arch.regs == q.arch.regs && StepAhead(q).arch.mem == q.arch.mem
    ensures StepAhead(q).arch.pc == if Ahead(q).Mret? then q.arch.csrs.mepc else q.arch.csrs.mtvec
    ensures StepAhead(q).arch.csrs == match Ahead(q)
                                      case Ecall => Trap(q.arch.csrs, q.arch.pc, CAUSE_ECALL_M)
                                      case Ebreak => Trap(q.arch.csrs, q.arch.pc, CAUSE_BREAKPOINT)
                                      case _ => Return(q.arch.csrs)
  {
    hide Rv32i.Decode, Permitted, WordAligned, Trap, Return, ReadFull, Holds, Get;
  }

  /** A handler instruction that leaves the saved machine state alone. */
  ghost predicate SparesSaved(i: Instr) {
    !i.Ecall? && !i.Ebreak? && !i.Mret?
    && (i.Csr? ==> (i.csr != MSTATUS && i.csr != MEPC) || (i.kind != Write && i.rs1 == 0))
  }

  ghost predicate SparesSavedFor(q: Prefetched, n: nat)
    decreases n
  {
    n == 0 || (CanStepAhead(q) && SparesSaved(Ahead(q)) && SparesSavedFor(StepAhead(q), n - 1))
  }

  lemma WriteSpares(c: MachineCsrs, a: bv12, v: Word)
    requires a != MSTATUS && a != MEPC
    ensures WriteCsr(c, a, v).mepc == c.mepc && WriteCsr(c, a, v).mpie == c.mpie && WriteCsr(c, a, v).mpp == c.mpp
  {
    hide WordAddress;
  }

  /** The part of the CSRs a trap saves and a return brings back. */
  ghost predicate SameSaved(c: MachineCsrs, d: MachineCsrs) {
    c.mepc == d.mepc && c.mpie == d.mpie && c.mpp == d.mpp
  }

  lemma SavedKept(a: Arch, i: Instr)
    requires SparesSaved(i)
    ensures SameSaved(NextCsrs(a, i), a.csrs)
  {
    hide Get, ReadCsr, SetBits, ClearBits, WriteCsr;
    if i.Csr? && i.csr != MSTATUS && i.csr != MEPC {
      var v := Get(a.regs, i.rs1);
      WriteSpares(a.csrs, i.csr, v);
      WriteSpares(a.csrs, i.csr, SetBits(ReadCsr(a.csrs, i.csr), v));
      WriteSpares(a.csrs, i.csr, ClearBits(ReadCsr(a.csrs, i.csr), v));
    }
  }

  lemma CsrsAhead(q: Prefetched)
    requires CanStepAhead(q)
    ensures StepAhead(q).arch.csrs == NextCsrs(q.arch, Ahead(q)) && StepAhead(q).arch.pc == NextPc(q.arch, Ahead(q))
  {
    hide Rv32i.Decode, Permitted, NextPc, NextRegs, NextCsrs, NextMem, ReadFull, Refetches;
  }

  lemma {:induction false} SavedKeptFor(q: Prefetched, n: nat)
    requires RunsAhead(q, n) && SparesSavedFor(q, n)
    ensures SameSaved(AfterAhead(q, n).arch.csrs, q.arch.csrs)
    decreases n
  {
    hide CanStepAhead, StepAhead, Ahead, SparesSaved, NextCsrs, NextPc;
    if n > 0 {
      CsrsAhead(q);
      SavedKept(q.arch, Ahead(q));
      SavedKeptFor(StepAhead(q), n - 1);
    }
  }

  /** At q a trap is about to happen; a handler of n instructions that spares mstatus and mepc follows it,
      and then an MRET. */
  ghost predicate TrapAndReturn(q: Prefetched, n: nat) {
    CanStepAhead(q) && (Ahead(q).Ecall? || Ahead(q).Ebreak?) && q.arch.csrs.priv == MACHINE
    && RunsAhead(StepAhead(q), n) && SparesSavedFor(StepAhead(q), n)
    && (var r := AfterAhead(StepAhead(q), n); CanStepAhead(r) && Ahead(r).Mret?)
  }

  lemma {:induction false} OneMore(q: Prefetched, n: nat)
    requires RunsAhead(q, n) && CanStepAhead(AfterAhead(q, n))
    ensures RunsAhead(q, n + 1) && AfterAhead(q, n + 1) == StepAhead(AfterAhead(q, n))
    decreases n
  {
    hide CanStepAhead, StepAhead;
    if n > 0 { OneMore(StepAhead(q), n - 1); }
  }

  /** Trap, handler and MRET: the trapped instruction's address, the interrupt enable and machine mode
      are back. */
  lemma TrapThenReturn(q: Prefetched, n: nat)
    requires TrapAndReturn(q, n)
    ensures RunsAhead(q, n + 2)
    ensures var b := AfterAhead(q, n + 2).arch;
            b.pc == q.arch.pc && b.csrs.priv == q.arch.csrs.priv && b.csrs.mie == q.arch.csrs.mie
  {
    hide CanStepAhead, StepAhead, Ahead, SparesSavedFor;
    OneMore(StepAhead(q), n);
    SavedKeptFor(StepAhead(q), n);
    CsrsAhead(q);
    CsrsAhead(AfterAhead(StepAhead(q), n));
  }

  /** The same on the pipeline: after exactly the clocks those instructions cost, the trapping
      instruction is in execute again, with the interrupt enable and machine mode back. */
  lemma TrapThenReturnHappens(s: State, q: Prefetched, n: nat)
    requires Coherent(s) && RefinesAhead(s, q) && TrapAndReturn(q, n)
    ensures RunsAhead(q, n + 2)
    ensures var t := Run(s, Debt(s) + TotalCycles(q, n + 2));
            t.genuine && t.fe.pc == q.arch.pc
            && DrainedCsrs(t).priv == q.arch.csrs.priv && DrainedCsrs(t).mie == q.arch.csrs.mie
  {
    hide Coherent, TrapAndReturn, RunsAhead, RefinesAhead, DrainedCsrs, Next, Epc, Cycles, CanStepAhead, StepAhead,
      Ahead;
    TrapThenReturn(q, n);
    EveryRunHappens(s, q, n + 2);
    RefinesCsrs(Run(s, Debt(s) + TotalCycles(q, n + 2)), AfterAhead(q, n + 2));
    RefinesPc(Run(s, Debt(s) + TotalCycles(q, n + 2)), AfterAhead(q, n + 2));
  }

  /* ---- A program that is executed stale ---- */

  const STORE_NEXT: Word := 0x0020_a223
  const OLD_WORD: Word := 0x0010_0193
  const NEW_WORD: Word := 0x0020_0193

  /** SW x2, 4(x1) and then ADDI x3, x0, 1 everywhere. */
  ghost function Overwriting(): Words {
    imap k: Slot :: OverwritingAt(k)
  }

  function OverwritingAt(k: Slot): Word {
    if k == Index(BOOT) then STORE_NEXT else OLD_WORD
  }

  lemma WordsDecode()
    ensures Rv32i.Decode(STORE_NEXT) == Some(Store(Full, 1, 2, 4))
    ensures Rv32i.Decode(OLD_WORD) == Some(OpImm(Add, 3, 0, 1))
    ensures Rv32i.Decode(NEW_WORD) == Some(OpImm(Add, 3, 0, 2))
  {
  }

  lemma BootAddresses()
    ensures Plus(BOOT, 4) == 0x10_0004 && Plus(Plus(BOOT, 4), 4) == 0x10_0008
    ensures WordAligned(BOOT) && WordAligned(Plus(BOOT, 4)) && WordAligned(Plus(Plus(BOOT, 4), 4))
    ensures Present(BOOT) && Present(Plus(BOOT, 4)) && InRam(BOOT) && InRam(Plus(BOOT, 4))
    ensures InOneWord(Plus(BOOT, 4), Full)
    ensures Index(Plus(BOOT, 4)) != Index(BOOT)
    ensures Plus(0, 1) == 1 && Plus(0, 2) == 2
  {
  }

  /** With x1 pointing at it and x2 holding another instruction, the first instruction of the program
      overwrites the second. */
  ghost predicate AboutToOverwrite(a: Arch) {
    a.pc == BOOT && a.regs[1] == BOOT && a.regs[2] == NEW_WORD && a.regs[0] == 0
    && ReadFull(a.mem, BOOT) == STORE_NEXT && ReadFull(a.mem, Plus(BOOT, 4)) == OLD_WORD
  }

  lemma NewInMemory(a: Arch)
    requires AboutToOverwrite(a)
    ensures CanStep(a) && Rv32i.Current(a) == Some(Store(Full, 1, 2, 4))
    ensures Step(a).pc == Plus(BOOT, 4) && Step(a).regs == a.regs
    ensures ReadFull(Step(a).mem, Plus(BOOT, 4)) == NEW_WORD
  {
    hide Rv32i.Decode, ReadFull, StoreValue, WordAligned, Present, InOneWord, Plus;
    WordsDecode();
    BootAddresses();
    StoreThenRead(a.mem, Plus(BOOT, 4), NEW_WORD);
  }

  /** The plain machine executes the new word ... */
  lemma PlainTakesNew(a: Arch)
    requires AboutToOverwrite(a)
    ensures RunsFor(a, 2) && After(a, 2).regs[3] == 2
  {
    hide Rv32i.Decode, ReadFull, WordAligned, Present, Plus, NextMem;
    NewInMemory(a);
    WordsDecode();
    BootAddresses();
    var b := Step(a);
    assert Rv32i.Current(b) == Some(OpImm(Add, 3, 0, 2));
    assert CanStep(b) && Step(b).regs[3] == 2;
    assert RunsFor(b, 1) && After(b, 1) == Step(b);
  }

  /** ... and the one that reads ahead the old one. */
  lemma AheadTakesOld(a: Arch)
    requires AboutToOverwrite(a)
    ensures RunsAhead(Refill(a), 2) && AfterAhead(Refill(a), 2).arch.regs[3] == 1
    ensures TotalCycles(Refill(a), 2) == 2
  {
    hide Rv32i.Decode, ReadFull, WordAligned, Present, Plus, NextMem, InOneWord;
    WordsDecode();
    BootAddresses();
    var q := Refill(a);
    assert CanStepAhead(q) && Ahead(q) == Store(Full, 1, 2, 4);
    var r := StepAhead(q);
    assert r.word == OLD_WORD && r.arch.pc == Plus(BOOT, 4) && r.arch.regs == a.regs;
    assert CanStepAhead(r) && Ahead(r) == OpImm(Add, 3, 0, 1);
    assert StepAhead(r).arch.regs[3] == 1;
    assert RunsAhead(r, 1) && AfterAhead(r, 1) == StepAhead(r) && TotalCycles(r, 1) == 1;
  }

  lemma OverwritingReads(words: Words, mem: Bytes)
    requires words == Overwriting() && mem == BytesOf(words)
    ensures ReadFull(mem, BOOT) == STORE_NEXT && ReadFull(mem, Plus(BOOT, 4)) == OLD_WORD
  {
    hide ReadFull, BytesOf, Index, InRam, WordAligned, Plus, Present;
    BootAddresses();
    ReadWord(words, mem, BOOT);
    ReadWord(words, mem, Plus(BOOT, 4));
  }

  /** Stores onto words already read are executed stale: from a state every run may begin in, three clocks
      on, the pipeline no longer stands for what the instruction set reaches with its two instructions. */
  lemma ExecutedStale(regs: Regs, csr: CsrRegs, a: Arch)
    requires regs[0] == 0 && regs[1] == BOOT && regs[2] == NEW_WORD && csr.m.priv == MACHINE && WordAligned(csr.m.mepc)
    requires a == Arch(BOOT, regs, csr.m, BytesOf(Overwriting()))
    ensures var s := Started(regs, csr, Overwriting());
            RefinesAhead(s, Refill(a)) && RunsFor(a, 2) && Performed(s, 3) == 2 && !Refines(Run(s, 3), After(a, 2))
  {
    hide Coherent, Refines, Next, ReadFull, WordAligned, BytesOf, Overwriting, RunsFor, RunsAhead, CanStepAhead,
      CanStep, Epc, Started;
    var s := Started(regs, csr, Overwriting());
    OverwritingReads(Overwriting(), a.mem);
    StartsCoherent(regs, csr, Overwriting());
    PlainTakesNew(a);
    AheadTakesOld(a);
    EveryRunHappens(s, Refill(a), 2);
    DifferentRegs(Run(s, 3), AfterAhead(Refill(a), 2).arch, After(a, 2));
  }

  lemma DifferentRegs(s: State, a: Arch, b: Arch)
    requires Refines(s, a) && a.regs[3] != b.regs[3]
    ensures !Refines(s, b)
  {
    hide RegsNext, SameBytes, BytesOf, DrainedCsrs, DrainedPc;
  }
}
