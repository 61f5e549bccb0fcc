/** The instruction set on a machine that has read its next two words already. The Zifencei chapter of the
    Unprivileged ISA leaves open when instruction fetches see a store; this machine reads afresh behind a
    transfer of control, a load or a CSR access, and is otherwise two words ahead. */
module Prefetch {
  import opened Bits
  import opened Rv32i

  /** `word` is about to be executed, `next` is the word behind it; each may since have been overwritten. */
  datatype Prefetched = Prefetched(arch: Arch, word: Word, next: Word)

  /** Both words read afresh. */
  ghost function Refill(a: Arch): Prefetched {
    Prefetched(a, ReadFull(a.mem, a.pc), ReadFull(a.mem, Plus(a.pc, 4)))
  }

  /** The instructions behind which both words are read afresh. */
  ghost predicate Refetches(a: Arch, i: Instr) {
    i.Jal? || i.Jalr? || i.Load? || i.Csr? || i.Ecall? || i.Ebreak? || i.Mret?
    || (i.Branch? && Holds(i.cond, Get(a.regs, i.rs1), Get(a.regs, i.rs2)))
  }

  ghost predicate CanStepAhead(q: Prefetched) {
    Rv32i.Decode(q.word).Some? && CanPerform(q.arch, Rv32i.Decode(q.word).value)
  }

  ghost function Ahead(q: Prefetched): Instr
    requires CanStepAhead(q)
  {
    Rv32i.Decode(q.word).value
  }

  /** One instruction: the word read ahead, whatever memory holds by now. */
  ghost function StepAhead(q: Prefetched): Prefetched
    requires CanStepAhead(q)
  {
    var b := Execute(q.arch, Ahead(q));
    if Refetches(q.arch, Ahead(q)) then Refill(b)
    else Prefetched(b, q.next, ReadFull(q.arch.mem, Plus(q.arch.pc, 8)))
  }

  /* ---- Runs ---- */

  ghost predicate RunsAhead(q: Prefetched, n: nat)
    decreases n
  {
    n == 0 || (CanStepAhead(q) && RunsAhead(StepAhead(q), n - 1))
  }

  ghost function AfterAhead(q: Prefetched, n: nat): Prefetched
    requires RunsAhead(q, n)
    decreases n
  {
    hide CanStepAhead, StepAhead;
    if n == 0 then q else AfterAhead(StepAhead(q), n - 1)
  }

  ghost predicate RunsFor(a: Arch, n: nat)
    decreases n
  {
    n == 0 || (CanStep(a) && RunsFor(Step(a), n - 1))
  }

  ghost function After(a: Arch, n: nat): Arch
    requires RunsFor(a, n)
    decreases n
  {
    if n == 0 then a else After(Step(a), n - 1)
  }

  /* ---- Against the plain instruction set ---- */

  /** The word about to be executed is the one memory holds. */
  ghost predicate Current(q: Prefetched) {
    q.word == ReadFull(q.arch.mem, q.arch.pc)
  }

  /** For n instructions no word is executed that memory no longer holds. */
  ghost predicate UpToDate(q: Prefetched, n: nat)
    decreases n
  {
    n == 0 || (Current(q) && (CanStepAhead(q) ==> UpToDate(StepAhead(q), n - 1)))
  }

  lemma CurrentStep(q: Prefetched)
    requires Current(q)
    ensures CanStepAhead(q) <==> CanStep(q.arch)
    ensures CanStepAhead(q) ==> StepAhead(q).arch == Step(q.arch) && Ahead(q) == Rv32i.Current(q.arch).value
  {
    hide Rv32i.Decode, ReadFull, Permitted, NextPc, NextRegs, NextCsrs, NextMem, WordAligned, Present;
  }

  /** As long as no stale word is executed this is the plain instruction set. */
  lemma {:induction false} AheadIsPlain(q: Prefetched, n: nat)
    requires UpToDate(q, n)
    ensures RunsAhead(q, n) <==> RunsFor(q.arch, n)
    ensures RunsAhead(q, n) ==> AfterAhead(q, n).arch == After(q.arch, n)
    decreases n
  {
    hide CanStepAhead, CanStep, StepAhead, Step, Current;
    if n > 0 {
      CurrentStep(q);
      if CanStepAhead(q) { AheadIsPlain(StepAhead(q), n - 1); }
    }
  }

  /** The next instruction executed is current exactly when this one refetches, or leaves the word that was
      read ahead reading as it was read. */
  lemma StaleExactly(q: Prefetched)
    requires CanStepAhead(q)
    ensures Current(StepAhead(q)) <==>
            Refetches(q.arch, Ahead(q)) || q.next == ReadFull(NextMem(q.arch, Ahead(q)), Plus(q.arch.pc, 4))
  {
    hide Rv32i.Decode, ReadFull, Permitted, NextRegs, NextCsrs, NextMem, WordAligned, Present, Holds, Get, Plus;
  }

  /* ---- Programs that never execute a stale word ---- */

  /** The word k bytes behind the program counter, if there is one, reads the same after instruction i. */
  ghost predicate KeepsWord(a: Arch, i: Instr, k: Word) {
    Present(Plus(a.pc, k)) ==> ReadFull(NextMem(a, i), Plus(a.pc, k)) == ReadFull(a.mem, Plus(a.pc, k))
  }

  ghost predicate RefetchesNow(a: Arch) {
    CanStep(a) && Refetches(a, Rv32i.Current(a).value)
  }

  /** No instruction changes the word behind it, nor the second word behind it unless the instruction
      in between refetches. */
  ghost predicate SparesFetched(a: Arch, n: nat)
    decreases n
  {
    n <= 1 || (CanStep(a) && SparesNow(a) && SparesFetched(Step(a), n - 1))
  }

  ghost predicate SparesNow(a: Arch)
    requires CanStep(a)
  {
    var i := Rv32i.Current(a).value;
    KeepsWord(a, i, 4) && (KeepsWord(a, i, 8) || RefetchesNow(Step(a)))
  }

  /** The second word is current too, or will not be used. */
  ghost predicate NextCurrent(q: Prefetched) {
    RefetchesNow(q.arch) || (Present(Plus(q.arch.pc, 4)) ==> q.next == ReadFull(q.arch.mem, Plus(q.arch.pc, 4)))
  }

  lemma SparedStep(q: Prefetched)
    requires Current(q) && NextCurrent(q) && CanStep(q.arch) && CanStepAhead(q) && StepAhead(q).arch == Step(q.arch)
    requires SparesNow(q.arch)
    ensures CanStep(Step(q.arch)) ==> Current(StepAhead(q))
    ensures NextCurrent(StepAhead(q))
  {
    hide Rv32i.Decode, ReadFull, Permitted, NextRegs, NextCsrs, NextMem, WordAligned, Present, Holds, Get, Plus;
    CurrentStep(q);
    PlusFours(q.arch.pc);
    FallsThrough(q.arch, Ahead(q));
  }

  lemma PlusFours(a: Word)
    ensures Plus(Plus(a, 4), 4) == Plus(a, 8)
  {
  }

  lemma FallsThrough(a: Arch, i: Instr)
    ensures !Refetches(a, i) ==> NextPc(a, i) == Plus(a.pc, 4)
  {
    hide Plus, Holds, Get;
  }

  lemma {:induction false} SparedIsUpToDate(q: Prefetched, n: nat)
    requires RunsFor(q.arch, n) && SparesFetched(q.arch, n)
    requires (n > 0 ==> Current(q)) && NextCurrent(q)
    ensures UpToDate(q, n)
    decreases n
  {
    hide CanStepAhead, CanStep, StepAhead, Step, Current, NextCurrent, SparesNow, RefetchesNow, Ahead;
    if n > 0 {
      CurrentStep(q);
      if n > 1 {
        SparedStep(q);
        SparedIsUpToDate(StepAhead(q), n - 1);
      }
    }
  }

  /** From a refill, a program that spares what is fetched runs as the plain instruction set says. */
  lemma SparedRunsArePlain(a: Arch, n: nat)
    requires RunsFor(a, n) && SparesFetched(a, n)
    ensures UpToDate(Refill(a), n) && RunsAhead(Refill(a), n) && AfterAhead(Refill(a), n).arch == After(a, n)
  {
    hide ReadFull, RefetchesNow, RunsFor, SparesFetched, UpToDate, RunsAhead;
    SparedIsUpToDate(Refill(a), n);
    AheadIsPlain(Refill(a), n);
  }
}
