# Riscinator in Dafny

Riscinator is a three-stage RV32I core in Chisel with a UART, a FIFO, a bus and a RAM around it, and
bare-metal C that runs on it. This project models its four hard parts and proves what they are for.
Check it with `dafny verify dfyconfig.toml`.

**The pipeline.** `Rv32i` states the instruction set one instruction at a time, with machine-mode traps,
without a stage, a control signal or a memory lane (RISC-V Unprivileged ISA, chapter 2 and Zicsr;
Privileged ISA, sections 3.1.6.1 and 3.3.2); `Encoding` shows that it leaves no instruction out.
`Prefetch` is the same machine two words ahead of itself, which the Unprivileged ISA allows without a
FENCE.I, and says when the two differ. `Control`, `Execute`,
`CsrUnit`, `Memory` and `Pipeline` are the hardware, one clock as one function; `CoreModules` has the same
as registers updated in place. `Datapath` proves the combinational half correct an instruction at a time,
`Refinement` that every clock performs exactly one instruction or none on the state obtained by draining
write-back, and `Execution` lifts that to whole runs of every program, exact cycle counts and precise
traps.

**The serial port.** `Serial` gives the baud generator, transmitter and receiver and their state at
every clock of a frame; `Drift` the exact clock mismatch under which the first report of a frame is right;
`Reports` everything the receiver reports of a frame, and when that is the byte sent and nothing else;
`Fifos` the ring buffer against a bounded queue; `UartBlocks` the composed block and its ordering
guarantees; `Delivery` what the block puts on the line, when every byte leaves, and a byte's way from one
block's FIFO to another's.

**The list benchmark.** `ListOrder` reasons about runs and merging on sequences; `CoreList`, `MergeSort`
and `ListBench` are the C code on heap cells: comparators with side effects, the in-place merge sort and
the benchmark that must put its list back. `Crc` is the CRC all benchmarks feed.

**Tokens, digits and the bus.** `TokenMachine`, `TokenScan` and `StateBench` are the number recogniser
and its benchmark, `Printf`, `Format` and `Directives` the digit loops, fields, directives and bounded output of
the small printf, `Bus` the bus.

## What the code turns out to do

- A store onto the word behind it, or onto the second word behind it with nothing in between that
  refetches, is not seen: the old word is executed (`Prefetch.StaleExactly`; `Execution.ExecutedStale` is a
  program). FENCE.I does nothing about it (`Refinement.FenceIRow`); a jump, a taken branch, a load, a CSR
  access, a trap or a return does.
- The receiver clears its bit count only at reset (src/main/scala/sys/uart/Rx.scala:18), so behind the first
  frame it takes one bit, reports, and takes the next low bit for a start bit. A later frame arrives as
  sent, and nothing besides, only if it is 0xff behind 0xfe or 0xff (`Reports.LaterFrame`).
- The transmitter's line register resets low (src/main/scala/sys/uart/Tx.scala:21), which a receiver reset
  with it takes for a start bit: there even the first byte arrives only if it is 0xff
  (`Reports.FirstAfterReset`).
- The first frame can be reported right and be followed by a spurious byte; the clock mismatch that avoids
  it is 151/144, tighter than the 135/128 of the last bit (`Reports.FirstFrame`, `Drift.FirstReport`).
- The FIFO advances both pointers when read and written at once, even when empty or full
  (`Fifos.RefinesQueue`).
- CSRRS with x0 writes back what it read; that is harmless at every CSR address
  (`CsrUnit.RewriteChangesNothing`).
- One built-in "scientific" pattern is invalid to the recogniser (`StateBench.PatternKinds`).
- The printf width reader accepts the base itself as a digit (`Printf.ReadsProperlyExactlyWhen`), and `%#s`
  takes its prefix from the last number printed (`Format.StringPrintsPlainly`).
- ERET's pattern also matches URET and SRET words, and the word called WFI is one of them, so WFI's row is
  never reached (src/main/scala/core/Instructions.scala:53-54). The reference decodes MRET only.

## Model

| member | source | states |
|---|---|---|
| `Refinement.PerformsOne` | src/main/scala/core/Core.scala:63-163 | From any coherent pipeline state holding a fetched word, one clock performs exactly one step of the independent RV32I reference, with that word, on pc, registers, CSRs and memory, whatever it stores: forwarding, loads, jumps, taken branches, CSR accesses, traps and returns included |
| `Refinement.GenuineStep` | src/main/scala/core/Core.scala:63-163 | The same against the machine that reads two words ahead: the word executed is the one it read, and the fetch registers hold its next word, for every instruction that can be performed and every store |
| `Refinement.BubbleAhead` | src/main/scala/core/Fetch.scala:33-44 | A clock with a bubble in execute performs nothing of that machine, and the words it has read are still what memory holds |
| `Refinement.BubbleStep` | src/main/scala/core/Core.scala:64 | A clock with a flushed-in NOP in execute leaves the architectural state exactly as it is and keeps the invariant, whatever is still draining |
| `Refinement.OperandIsDrained` | src/main/scala/core/Core.scala:150-160 | Forwarding from the ALU makes every operand equal the register's value after write-back, x0 included |
| `Refinement.RowsThatKeepGoing` | src/main/scala/core/Control.scala:73-123 | The rows that set inst_kill are exactly the jumps, loads, CSR accesses, traps and returns; every other legal row falls through and writes back only an ALU result |
| `Refinement.CsrsStep` | src/main/scala/core/Csr.scala:140-215 | The CSR unit, acting one clock after execute, leaves the CSRs the reference instruction leaves: trap entry, return, masked writes, or nothing |
| `Refinement.MemoryStep` | src/main/scala/core/Execute.scala:70-86 | The RAM after a clock holds, byte for byte, what the reference instruction stores |
| `Refinement.RegsStep` | src/main/scala/core/Writeback.scala:35-55 | The register file after write-back is the reference's, for every write-back source |
| `Refinement.PcStep` | src/main/scala/core/Fetch.scala:33-41 | The architectural pc of the next clock is the reference's next pc, redirects included |
| `Refinement.FenceIRow` | src/main/scala/core/Control.scala:112-113 | FENCE.I selects the row of FENCE: it refetches nothing |
| `Prefetch.AheadIsPlain` | src/main/scala/core/Fetch.scala:33-44 | Two words read ahead make no difference as long as no stale word is executed: the prefetching machine has the same runs and reaches the same states as the plain instruction set |
| `Prefetch.StaleExactly` | src/main/scala/core/Fetch.scala:33-44 | The next instruction executed is the one memory holds if and only if this one refetches, or leaves the word already read reading as it was read; nothing interlocks stores with fetches |
| `Prefetch.SparedRunsArePlain` | src/main/scala/core/Control.scala:90-92 | A program whose stores spare the word behind them, and the second word behind them unless the instruction in between refetches, runs as the plain instruction set says |
| `Execution.StartsCoherent` | src/main/scala/core/Fetch.scala:28-31 | The state with the first word fetched and a bubble in execute is coherent and stands for the boot state with both words read afresh, so every run below exists |
| `Execution.SpinsForever` | src/main/scala/core/Control.scala:77 | ... and of every length: a jump to itself runs forever, at two clocks a turn |
| `Execution.PipelineRefines` | src/main/scala/core/Core.scala:36-164 | Safety of whole runs, of every program: after any number of clocks the pipeline stands for the state the prefetching machine reaches after the instructions performed so far |
| `Execution.EveryRunHappens` | src/main/scala/core/Core.scala:36-164 | Progress: every run of the prefetching machine is performed, and is complete after exactly the clocks it costs |
| `Execution.PlainRunHappens` | src/main/scala/core/Core.scala:36-164 | A run of the plain instruction set in which no overwritten word is executed is performed as that instruction set says |
| `Execution.ExecutedStale` | src/main/scala/core/Fetch.scala:33-44 | A failing case: SW onto the next instruction. From a state runs begin in, three clocks on, with two instructions performed, the pipeline does not stand for the state the instruction set reaches with two |
| `Execution.ClocksAreAccounted` | src/main/scala/core/Core.scala:162-163 | Cycle accounting at every clock: elapsed clocks are the initial bubbles plus one clock an instruction, one more for a jump, load, CSR access or taken branch and two more for a trap or return, less the bubbles still owed |
| `Execution.NeverStalls` | src/main/scala/core/Core.scala:162-163 | There are never more than two bubbles before the next instruction |
| `Execution.TrapIsPrecise` | src/main/scala/core/Csr.scala:158-191 | ECALL, EBREAK and MRET are precise: for two clocks nothing is performed, no younger instruction touches a register, memory or CSR, mepc and mcause are the trapping pc and the defined cause, and execution goes on at mtvec or mepc |
| `Execution.SavedKeptFor` | src/main/scala/core/Csr.scala:192-215 | No run of instructions other than traps, returns and writes of mstatus or mepc changes mepc, mpie or mpp |
| `Execution.TrapThenReturn` | src/main/scala/core/Csr.scala:163-191 | A trap, any handler sparing mstatus and mepc, and MRET bring back the trapping address, the interrupt enable and machine mode |
| `Execution.TrapThenReturnHappens` | src/main/scala/core/Csr.scala:163-191 | The same on the pipeline: after exactly the clocks of trap, handler and MRET the trapping instruction is in execute again, with the interrupt enable and machine mode back |
| `CsrUnit.CommitTraps` | src/main/scala/core/Csr.scala:163-184 | Trap entry of the Privileged ISA, section 3.1.6.1: mepc, mcause, and the priv and interrupt-enable stack |
| `CsrUnit.CommitReturns` | src/main/scala/core/Csr.scala:185-191 | Trap return of the Privileged ISA, section 3.3.2 |
| `CsrUnit.CommitWrites` | src/main/scala/core/Csr.scala:140-148 | CSRRW, CSRRS and CSRRC do what the instruction set says although the unit writes back even when CSRRS names x0 |
| `Bits.SetBitsIs` | src/main/scala/core/Csr.scala:140-148 | CSRRS sets the bits of its operand and keeps the others |
| `Bits.ClearBitsIs` | src/main/scala/core/Csr.scala:140-148 | CSRRC clears the bits of its operand and keeps the others |
| `CsrUnit.CauseIsFirst` | src/main/scala/core/Csr.scala:163-177 | The cause recorded is that of the first condition that holds, in the order faults, misalignment, ECALL by level, EBREAK, illegal |
| `CsrUnit.CountsClocks` | src/main/scala/core/Csr.scala:130-134 | cycle and time with their upper halves are 64-bit numbers that count clocks |
| `CsrUnit.AddressMap` | src/main/scala/core/Csr.scala:12-40 | The addresses and levels are those the Privileged ISA assigns |
| `CsrUnit.RewriteIsNoOp` | src/main/scala/core/Csr.scala:192-215 | Writing a CSR with what it reads as changes nothing, for every CSR of the reference |
| `CsrUnit.RewriteChangesNothing` | src/main/scala/core/Csr.scala:140-215 | The same in the unit itself, for every address there is, mip and the read-only and absent ones included: the write-back of a CSRRS that names x0 leaves every register of the unit |
| `CsrUnit.ReadBack` | src/main/scala/core/Csr.scala:104-215 | Every CSR that can be written, mip included, reads as the value written cut to the bits it has |
| `CsrUnit.RdataAgrees` | src/main/scala/core/Csr.scala:104-138 | Every CSR of the reference reads as the instruction set lays it out |
| `Datapath.ControlAgrees` | src/main/scala/core/Control.scala:74-124 | For every instruction word the reference decodes, the table of bit patterns selects the control row that instruction needs: no pattern shadows another |
| `Encoding.DecodeEncode` | src/main/scala/core/Instructions.scala:6-56 | The reference leaves no instruction out: every instruction whose immediate fits has the word its format gives it, and that word decodes to it |
| `Encoding.DecodesFence` | src/main/scala/core/Instructions.scala:44 | FENCE with any predecessor and successor set decodes |
| `Datapath.ImmediateAgrees` | src/main/scala/core/Execute.scala:49-61 | The immediate the row selects is the one the instruction format defines, sign extension included |
| `Datapath.AluAgrees` | src/main/scala/core/Alu.scala:22-43 | Each ALU operation computes the reference operation on all operands |
| `Datapath.SraAt` | src/main/scala/core/Alu.scala:41 | SRA and SRAI: every bit of the result is the one as many places up as the low five bits of the second operand say, or the sign |
| `Bits.SignExtendAt` | src/main/scala/core/Execute.scala:49-61 | Sign extension keeps the bits of a field of any length and repeats its top bit above |
| `Bits.AddressesRound` | src/main/scala/core/Execute.scala:70 | Data addresses are rounded down to a word and jump targets (Fetch.scala:38) to an even address |
| `Datapath.ImmediateZ` | src/main/scala/core/Execute.scala:49-61 | The immediate of the CSR immediate forms is the five bits of their rs1 field |
| `Datapath.BranchAgrees` | src/main/scala/core/Branch.scala:16-28 | Each branch is taken exactly when its condition holds |
| `Datapath.ResultAgrees` | src/main/scala/core/Execute.scala:63-68 | Operand selection and ALU together give each instruction's value, target or effective address |
| `Datapath.RequestAgrees` | src/main/scala/core/Execute.scala:70-86 | Exactly loads and stores reach the data port, with word address, shifted data and byte enables |
| `Memory.StoreRefines` | src/main/scala/sys/ram/Ram.scala:46-57 | Shifted store data, byte enables and the word RAM together perform a little-endian byte-addressed store, at every address and width inside one word |
| `Memory.LoadRefines` | src/main/scala/core/Writeback.scala:35-45 | The load shifter returns what a little-endian load reads, signed and unsigned, at every such address |
| `Memory.ReadWord` | src/main/scala/sys/ram/Ram.scala:59-60 | An aligned word of the byte memory is the RAM word the fetch reads |
| `CoreModules.Core.Clock` | src/main/scala/core/Core.scala:63-163 | The register-by-register clock of the core computes the clock function all results above are about |
| `CoreModules.Core.ReadOperand` | src/main/scala/core/Core.scala:150-160 | A register read with its forwarding override |
| `CoreModules.RegFile.Clock` | src/main/scala/core/RegFile.scala:21-28 | The register file's clock, x0 kept |
| `CoreModules.Csr.Clock` | src/main/scala/core/Csr.scala:130-215 | The CSR unit's clock: commit, then count |
| `CoreModules.Ram.Clock` | src/main/scala/sys/ram/Ram.scala:46-61 | Byte-lane writes and registered reads of the old contents |
| `Reports.FirstFrame` | src/main/scala/sys/uart/Rx.scala:23-65 | The first frame to a receiver reset with the line high is received as sent and nothing else is reported of it, for every byte and every phase of both tick generators, if and only if 144 tx periods are at most 151 rx periods plus two clocks and 136 rx periods at most 143 tx periods |
| `Reports.FirstFrameOnce` | src/main/scala/sys/uart/Rx.scala:23-65 | Within that tolerance all that is reported of the first frame is its byte, once |
| `Reports.AllReports` | src/main/scala/sys/uart/Rx.scala:25-65 | All that is reported of any frame until both ends are at rest: one byte, made of the samples, if the line stays high after the first report, and more than one otherwise |
| `Reports.LaterReports` | src/main/scala/sys/uart/Rx.scala:18-65 | Only reset clears the receiver's bit count, so a later frame has its first bit reported above the previous byte moved down; that is all exactly when its other bits are ones, and each low one starts the receiver again |
| `Reports.LaterFrame` | src/main/scala/sys/uart/Rx.scala:18-65 | So a later frame arrives as sent and alone if and only if it is 0xff and the byte reported before is 0xfe or 0xff |
| `Reports.SecondFrame` | src/main/scala/sys/uart/Rx.scala:18-65 | Two bytes one after the other to a receiver reset with the line high: the first arrives as sent, the second if and only if it is 0xff behind 0xfe or 0xff |
| `Reports.ZeroAfterZero` | src/main/scala/sys/uart/Rx.scala:18-65 | A failing case at every shared divisor: of 0x00 behind 0x00 the first report is right and others follow |
| `Reports.FirstAfterReset` | src/main/scala/sys/uart/Tx.scala:21-30 | A failing family: the transmitter's line register resets low, so of two ends reset at once the receiver reports a byte of ones before anything is sent, and the first byte sent arrives as sent and alone if and only if it is 0xff |
| `Reports.ResetComesToRest` | src/main/scala/sys/uart/Rx.scala:23-65 | ... and that state is reached |
| `Reports.NextFrame` | src/main/scala/sys/uart/Tx.scala:26-36 | Later frames exist: a byte offered at rest starts one, with the receiver's bit count at 7 and its register at the last byte it reported |
| `Reports.FollowingAt` | src/main/scala/sys/uart/Rx.scala:15-65 | ... and its clocks are the later clocks of the same link |
| `Reports.ComesToRest` | src/main/scala/sys/uart/Rx.scala:23-65 | Every frame with nothing sent behind it comes to rest: transmitter idle, line high, receiver idle |
| `Drift.FirstReport` | src/main/scala/sys/uart/Rx.scala:23-65 | The first report of a receiver whose bit count is still 0 is the byte sent if and only if 128 tx periods are at most 135 rx periods plus a clock and 136 rx periods at most 143 tx periods |
| `Drift.DriftBound` | src/main/scala/sys/uart/Rx.scala:39-54 | The exact bound for the first report of a receiver whose bit count starts anywhere: the bits it takes are the ones sent |
| `Drift.SharedDivisor` | src/main/scala/sys/uart/UartBlock.scala:36-45 | With one divisor at both ends the bits a receiver takes before its first report are those sent; they are the whole byte only when its bit count starts at 0 |
| `Drift.AfterFrame` | src/main/scala/sys/uart/Rx.scala:55-64 | Behind the first report of any frame the receiver is idle with its bit count at 7, wherever the frame is |
| `Drift.LastBitDecides` | src/main/scala/sys/uart/Rx.scala:39-54 | Timing that tolerates the last bit tolerates every bit before it |
| `Serial.FrameEnds` | src/main/scala/sys/uart/Rx.scala:23-65 | Whatever the line does, a started receiver first reports at a clock fixed by its own ticks, not earlier, with the bits that were on the line at its sampling ticks |
| `Serial.RxTrajectory` | src/main/scala/sys/uart/Rx.scala:23-65 | The receiver's whole state at every clock of a frame as a closed form of the ticks counted |
| `Serial.TxTrajectory` | src/main/scala/sys/uart/Tx.scala:26-73 | The transmitter's whole state and line level at every clock of a frame, as a closed form of the ticks counted |
| `Serial.TxEnds` | src/main/scala/sys/uart/Tx.scala:63-72 | The transmitter reports a frame done at its 160th tick and at no clock before |
| `Serial.TickTimes` | src/main/scala/sys/uart/Baud.scala:11-13 | Ticks are exactly a divisor plus one apart, from any count |
| `Serial.TickAt` | src/main/scala/sys/uart/Baud.scala:11-13 | The clock of each tick |
| `UartBlocks.TransmitOrder` | src/main/scala/sys/uart/UartBlock.scala:54-61 | On every run with writes only while tx_full is low, bytes written are bytes completed followed by FIFO contents; while the transmitter is busy the FIFO's front is the byte on the line, so a completed frame pops its own byte and never an empty FIFO |
| `Delivery.FrameOnLine` | src/main/scala/sys/uart/UartBlock.scala:54-61 | From any clock with the transmitter idle and a byte waiting, with a fixed divisor: the front byte is loaded, its levels are on the line tick by tick, and it is reported sent at the wait for a tick and 159 periods after the load, at no clock before |
| `Delivery.FrameSent` | src/main/scala/sys/uart/UartBlock.scala:54-61 | ... and with that exactly that byte has been completed and the transmitter is idle |
| `Delivery.EveryByteLeaves` | src/main/scala/sys/uart/UartBlock.scala:54-61 | On every run from reset with writes only while there is room, from every clock on: the first k bytes written by then have been completed, in order, once each of those still missing has had 160 tick periods and a clock |
| `Delivery.RunBetween` | src/main/scala/sys/uart/UartBlock.scala:36-61 | Two blocks with the line of one at the serial input of the other are, from the load of a byte on, the two ends of the frame the receiver theorems are about |
| `Delivery.ReportedBetween` | src/main/scala/sys/uart/UartBlock.scala:47-52 | ... and what the second block reports is what is reported of that frame |
| `Delivery.ByteArrives` | src/main/scala/sys/uart/UartBlock.scala:36-61 | From FIFO to FIFO: a byte waiting in one block ends in the FIFO of another whose receiver was reset with the line high, once and as written, for all tolerable divisors and at every phase |
| `Delivery.LaterByteArrives` | src/main/scala/sys/uart/Rx.scala:18-65 | To a receiver that has been used the byte arrives so if and only if it is 0xff and the last byte was 0xfe or 0xff |
| `UartBlocks.ReceiveOrder` | src/main/scala/sys/uart/UartBlock.scala:47-52 | On every run with reads only while rx_empty is low and no overrun, bytes reported are bytes taken followed by FIFO contents |
| `UartBlocks.Baud.Clock` | src/main/scala/sys/uart/Baud.scala:11-13 | The counter and its tick |
| `UartBlocks.Tx.Clock` | src/main/scala/sys/uart/Tx.scala:17-73 | The transmitter's registers step as the function above |
| `UartBlocks.Rx.Clock` | src/main/scala/sys/uart/Rx.scala:15-65 | The receiver's registers step as the function above |
| `UartBlocks.UartBlock.Clock` | src/main/scala/sys/uart/UartBlock.scala:36-61 | The composed block steps as the composed function |
| `Fifos.RefinesQueue` | src/main/scala/lib/fifo/Fifo.scala:44-72 | The ring buffer refines a bounded queue at a clock if and only if it is not asked to read and write at once while empty, or while full with anything but its own front |
| `Fifos.NextContents` | src/main/scala/lib/fifo/Fifo.scala:44-94 | What the contents become in every case, the two failing ones included |
| `Fifos.RunRefinesQueue` | src/main/scala/lib/fifo/Fifo.scala:39-94 | On every run the pointers meet exactly when full or empty and never both; on every run without those two cases contents and flags are a bounded queue's |
| `Fifos.Fifo.Clock` | src/main/scala/lib/fifo/Fifo.scala:39-94 | The pointers, flags and memory step as the function above |
| `Fifos.PowerOfTwo` | src/main/scala/lib/fifo/Fifo.scala:39-43 | A FIFO of addrw address bits has two to the addrw elements |
| `MergeSort.Sort` | sw/coremark/core_list_join.c:500-595 | The bottom-up merge sort terminates and returns a null-terminated list of the same cells, one run in order of key and then starting position |
| `ListBench.CoreListMergesort` | sw/coremark/core_list_join.c:500-595 | On every non-empty list: the same cells, sorted and stable (by idx, or by the data modulo 128), only next links and item data changed, data only as the comparator changes it; with two or more cells every item is settled, and under cmp_complex each uncached value was computed exactly once |
| `MergeSort.MergePass` | sw/coremark/core_list_join.c:510-587 | One pass turns sorted runs of insize cells into sorted runs of twice that, counting merges |
| `MergeSort.MergeRuns` | sw/coremark/core_list_join.c:529-577 | Merging two runs relinks their cells into one run, comparing only when both have cells left |
| `MergeSort.CompareCells` | sw/coremark/core_list_join.c:121-142 | A comparison settles both items, computes each value at most once and returns the order of the settled keys |
| `ListOrder.TakeHead` | sw/coremark/core_list_join.c:531-576 | The merge step: output extended by the smaller head stays in order in front of both rests |
| `ListOrder.AppendBlock` | sw/coremark/core_list_join.c:510-594 | Merged runs appended keep the whole list cut into runs |
| `CoreList.CalcFunc` | sw/coremark/core_list_join.c:69-114 | The item's data modulo 128 if it is cached, touching nothing; else that of what the benchmark its low three bits name returned for its argument, or of the data itself, which is fed to the CRC, kept as the first such result, and cached under the backup byte |
| `CoreList.ItemParts` | sw/coremark/core_list_join.c:74-112 | Backup byte, cache bit, value, regenerated word and argument of an item, as quotients and remainders |
| `CoreList.CompareByValue` | sw/coremark/core_list_join.c:120-126 | cmp_complex: both values cached, the difference of the two items' data modulo 128 returned |
| `CoreList.CompareByIndex` | sw/coremark/core_list_join.c:133-142 | cmp_idx: both working bytes regenerated when there are no results to pass, the difference of the indices returned |
| `ListBench.CoreListFind` | sw/coremark/core_list_join.c:435-449 | The first cell with the index, or with the working byte when the index is negative; null if there is none |
| `ListBench.CoreListReverse` | sw/coremark/core_list_join.c:465-476 | The list reversed in place |
| `ListBench.FindOnce` | sw/coremark/core_list_join.c:184-204 | One search: find, reverse, and move the cell behind the one found up behind the head, with the bit it adds to the result |
| `ListBench.SearchedAt` | sw/coremark/core_list_join.c:184-204 | Where each item stood before a search: the whole list is reversed, but for the one behind the one found |
| `ListBench.FindAll` | sw/coremark/core_list_join.c:168-209 | All the searches: the order they leave, the index sought next, and the number: the bits of all searches and four for each found less one for each missed, modulo 2^16 |
| `ListBench.IndexSought` | sw/coremark/core_list_join.c:200-201 | The index sought goes up by one a search until it would leave 16 bits; from then on, or from a negative one on, bytes are sought |
| `ListBench.CacheNext` | sw/coremark/core_list_join.c:195-203 | The relinking alone: the cell behind the one found becomes the second |
| `ListBench.CoreListRemove` | sw/coremark/core_list_join.c:377-389 | The next cell is unlinked and the two items swapped |
| `ListBench.CoreListUndoRemove` | sw/coremark/core_list_join.c:408-419 | The removed cell goes back with both items, whatever was relinked since |
| `ListBench.RemoveAndUndo` | sw/coremark/core_list_join.c:215-228 | Removal, search, CRC walk and undo leave list and items as they were; the number is the CRC of one copy of the head's data for each item from the match on, the second item left out |
| `ListBench.CrcWalk` | sw/coremark/core_list_join.c:221-225 | The walk feeds the head's data to the CRC once for each cell passed |
| `ListBench.CoreBenchList` | sw/coremark/core_list_join.c:159-235 | core_bench_list puts its list back: after any finds, reversals, relinks, the value sort, removal and undo, the same cells in the same order with the same items, indices and backup bytes, each working byte restored from its backup; and it returns the number those steps come to, a function of the items, the arguments and the order the sort by value leaves |
| `ListBench.ValueSort` | sw/coremark/core_list_join.c:211-213 | The sort by value leaves every item with its value computed, in ascending order of the data modulo 128, equal ones in the order they had |
| `ListBench.ReturnedIsDetermined` | sw/coremark/core_list_join.c:159-235 | That number is a function of the items and arguments alone when nothing is sorted by value, or no item needs another benchmark for its value |
| `ListBench.ValueOrderIsUnique` | sw/coremark/core_list_join.c:211-213 | ... since there is then one order by value |
| `ListBench.IndexOrderIsUnique` | sw/coremark/core_list_join.c:229-230 | Cells with distinct indices have one order by index, so the last sort can only restore |
| `ListBench.RegenRestores` | sw/coremark/core_list_join.c:136-141 | An item is unchanged by all this exactly when its low byte started equal to its high byte |
| `Crc.CrcU8` | sw/coremark/core_util.c:164-188 | The byte loop is eight steps of a right-shifting register with feedback 0xA001, least significant bit first |
| `Crc.CrcU16` | sw/coremark/core_util.c:189-195 | Low byte, then high byte |
| `Crc.LowAndHigh` | sw/coremark/core_util.c:189-195 | ... which make up the half word |
| `Crc.HalfWordDetected` | sw/coremark/core_util.c:189-195 | Different half words leave different CRCs, from every start |
| `Crc.CrcU32` | sw/coremark/core_util.c:196-202 | Low half, then high half |
| `Crc.WordHalves` | sw/coremark/core_util.c:196-202 | ... which make up the word |
| `Crc.UnstepStep` | sw/coremark/core_util.c:164-188 | Each step can be undone knowing only its message bit |
| `Crc.StepUnstep` | sw/coremark/core_util.c:164-188 | ... and every register value is the result of a step: each step is a bijection |
| `Crc.StepsLinear` | sw/coremark/core_util.c:164-188 | The CRC of a difference is the difference of the CRCs, for messages of any length |
| `Crc.BurstDetected` | sw/coremark/core_util.c:164-188 | Two bit strings of the same length, any length, that differ only inside a window of 16 bits have different CRCs from every start |
| `Crc.MessageBurstDetected` | sw/coremark/core_util.c:164-207 | The same for messages of bytes in the order the routines take them |
| `Crc.Crc16IsMessage` | sw/coremark/core_util.c:189-195 | A half word is processed as the message of its two bytes |
| `Crc.Crc32IsMessage` | sw/coremark/core_util.c:196-202 | A word is processed as the message of its four bytes, least significant first |
| `Crc.WordsAreMessage` | sw/coremark/core_util.c:196-207 | Chained calls process one message |
| `TokenMachine.StateIsLanguage` | sw/coremark/core_state.c:217-330 | After any text the machine is in a state if and only if the text is in that state's language: signed integers, decimals, decimals with a signed exponent, the prefixes between them, and, for INVALID, exactly the texts no continuation turns into a number |
| `TokenMachine.InvalidLanguage` | sw/coremark/core_state.c:217-330 | INVALID means no continuation is a number, and only that |
| `TokenMachine.Characters` | sw/coremark/core_state.c:196-216 | The characters the machine tells apart, digits 0 to 9 among them |
| `TokenMachine.StateOrder` | sw/coremark/coremark.h:123-134 | The order in which the states are counted |
| `TokenScan.CoreStateTransition` | sw/coremark/core_state.c:217-330 | A call consumes one token: up to and with its comma, up to the NUL, or up to and with the first byte that makes it INVALID; and counts its moves |
| `TokenScan.TokenMeaning` | sw/coremark/core_state.c:217-330 | A token is in its verdict's language; an INVALID one is past rescue with its last byte and was not before it |
| `TokenScan.Step` | sw/coremark/core_state.c:229-327 | One byte: the move, and which counters it raises |
| `TokenScan.ScanAll` | sw/coremark/core_state.c:66-69 | The loop over the buffer terminates with all its tokens, verdicts and moves counted modulo 2^32 |
| `TokenScan.TokensCover` | sw/coremark/core_state.c:66-69 | The tokens hold every byte before the NUL exactly once, in order |
| `TokenScan.TokensAreUnique` | sw/coremark/core_state.c:66-69 | A buffer has one list of tokens |
| `StateBench.Corrupt` | sw/coremark/core_state.c:77-82 | A corruption pass flips every step-th byte that is not a comma, in place |
| `StateBench.RestoredExactlyWhen` | sw/coremark/core_state.c:77-103 | Two passes restore the buffer if and only if, for every touched byte that is not a comma, the two seeds' low bytes agree and the flip does not make a comma |
| `StateBench.StillEnds` | sw/coremark/core_state.c:88-96 | With a step of two or more, of two NULs side by side one survives, so the second scan stays in the buffer |
| `StateBench.BothScansEnd` | sw/coremark/core_state.c:139-195 | So both scans end inside a buffer core_init_state filled |
| `StateBench.CoreInitState` | sw/coremark/core_state.c:139-195 | The input is the patterns the seed picks in turn, each with its comma, as many as leave room, then NULs, at least two for sizes above one; nothing past the size is written |
| `StateBench.PatternPicked` | sw/coremark/core_state.c:158-180 | Which pattern a seed picks: its kind by the seed modulo 8, one of four by the two bits above |
| `StateBench.PatternTexts` | sw/coremark/core_state.c:113-127 | The built-in patterns, character by character |
| `StateBench.PatternKinds` | sw/coremark/core_state.c:113-127 | The built-in patterns are of the kinds they are listed under, but for one listed as scientific that the machine finds invalid |
| `StateBench.CoreBenchState` | sw/coremark/core_state.c:46-111 | Both scans and both passes: the buffer twice corrupted, the tokens of both texts, and the CRC of their verdict and move counts |
| `Printf.Ulli2a` | sw/librtor/libc/tinyprintf.c:83-155 | The digit loop terminates without overflowing its divisor and writes the canonical numeral, no leading zeros, inside 23 characters, for every 64-bit number in base 8, 10 or 16; uli2a and ui2a are the same loop |
| `Printf.NumeralIsValue` | sw/librtor/libc/tinyprintf.c:139-155 | The canonical numeral stands for its number |
| `Printf.NumeralIsUnique` | sw/librtor/libc/tinyprintf.c:139-155 | A number has one canonical numeral, so the contract above fixes every digit |
| `Printf.DigitCharIs` | sw/librtor/libc/tinyprintf.c:148-150 | The characters of the digits, in both cases |
| `Printf.A2u` | sw/librtor/libc/tinyprintf.c:176-189 | The reader takes the longest run of characters it accepts as digits, modulo 2^32, and stops behind the next one |
| `Printf.WriteThenRead` | sw/librtor/libc/tinyprintf.c:139-189 | Every 32-bit number written in any of the bases is read back, stopping at the character behind it |
| `Printf.ReadsProperlyExactlyWhen` | sw/librtor/libc/tinyprintf.c:176-189 | For every string, the place where reading stops and the value read are those of a reader of digits below the base if and only if the character that stops the latter is not worth exactly the base; so also for the value modulo 2^32, if it is below that |
| `Printf.WrapCanHideIt` | sw/librtor/libc/tinyprintf.c:184-187 | Beyond 2^32 the wrap-around can hide the extra digit: a number that reads the same with one behind it |
| `Printf.BaseIsReadable` | sw/librtor/libc/tinyprintf.c:180-183 | A failing case: a width of 1a is twenty |
| `Printf.FieldLength` | sw/librtor/libc/tinyprintf.c:191-240 | A field is as long as its width or its sign, prefix and digits, whichever is longer; a width of 2^31 or more pads nothing |
| `Printf.FieldLayout` | sw/librtor/libc/tinyprintf.c:191-240 | Where the padding goes: zeros between prefix and digits if they are asked for, else spaces behind if left-aligned, else in front of sign and prefix |
| `Printf.Putchw` | sw/librtor/libc/tinyprintf.c:191-240 | The padding, sign, prefix, zeros and text of a field, in order |
| `Printf.FillCount` | sw/librtor/libc/tinyprintf.c:191-205 | The count of fill characters |
| `Format.Vsnprintf` | sw/librtor/libc/tinyprintf.c:435-459 | For every format, arguments and size: bounded output stores exactly the prefix that fits of what unbounded output stores, a NUL, nothing beyond, and returns the full length; a size of 0 writes nothing |
| `Format.Vsprintf` | sw/librtor/libc/tinyprintf.c:476-488 | Unbounded output stores everything the format comes to and a NUL |
| `Format.TfpFormat` | sw/librtor/libc/tinyprintf.c:242-409 | The format loop hands its output exactly the literal characters and fields, in order, with each argument used once |
| `Format.ReadDirective` | sw/librtor/libc/tinyprintf.c:265-320 | Flags, width, precision and length of a directive, read a character at a time and never past the terminator; the meaning of the result is the next row |
| `Format.ParsesBack` | sw/librtor/libc/tinyprintf.c:265-320 | Every directive written from flags, a width of 32 bits, a length and a conversion parses back to exactly those, wherever it stands in a format |
| `Format.PrecisionPads` | sw/librtor/libc/tinyprintf.c:289-297 | A precision of any decimal digits is read over, and all it does is turn zero padding on |
| `Format.RenderedPrints` | sw/librtor/libc/tinyprintf.c:255-405 | A format of one such directive prints that directive's field and nothing else |
| `Directives.WrittenPrints` | sw/librtor/libc/tinyprintf.c:242-409 | A format of any number of directives with text between them prints the text and, for each directive, the field of its own argument: arguments are taken in turn, one each and none for %% |
| `Directives.SignedShown` | sw/librtor/libc/tinyprintf.c:321-380 | %d and %i, with any flags and width, of 32 or 64 bits: a minus if the number is negative and the decimal numeral of its magnitude |
| `Directives.UnsignedShown` | sw/librtor/libc/tinyprintf.c:321-390 | %u, %x, %X, %o and %p: base, case, prefix and canonical numeral |
| `Directives.CharactersShown` | sw/librtor/libc/tinyprintf.c:380-409 | %c, %s and %% |
| `Format.NumberLength` | sw/librtor/libc/tinyprintf.c:191-240 | The field of a number is as long as its width or its sign, prefix and digits, whichever is longer |
| `Format.TextPrintsItself` | sw/librtor/libc/tinyprintf.c:255-258 | Text without a percent sign prints as it is, in front of whatever the rest prints |
| `Format.NumberText` | sw/librtor/libc/tinyprintf.c:83-155 | The text of a number conversion is its canonical numeral, by way of the buffer |
| `Format.SignedPrints` | sw/librtor/libc/tinyprintf.c:157-163 | A format of %d prints a signed number in decimal, the most negative one included, whatever the conversions before |
| `Format.UnsignedPrints` | sw/librtor/libc/tinyprintf.c:139-155 | %u, %o, %x and %X print the canonical numeral in their base and case |
| `Format.StringPrintsPlainly` | sw/librtor/libc/tinyprintf.c:191-240 | The base of the last number printed lives on: for every directive and argument a string prints padded and with no prefix if and only if the form is not alternate, or that base has no prefix, or the prefix is the 0 of an octal number and passes for one of the zeros the field is padded with |
| `Printf.Sink.Put` | sw/librtor/libc/tinyprintf.c:435-440 | One character through the output callback |
| `Bus.OneGrant` | src/main/scala/bus/Bus.scala:64-70 | At most one host is granted a clock, the lowest that requests, and one is whenever any requests |
| `Bus.Routed` | src/main/scala/bus/Bus.scala:74-101 | With windows that do not overlap, a granted request reaches the device whose window holds its address, unchanged, and no other |
| `Bus.NothingRouted` | src/main/scala/bus/Bus.scala:74-101 | A clock without a grant sends no device a request |
| `Bus.AnsweredNextClock` | src/main/scala/bus/Bus.scala:82-118 | A host is answered exactly when it was granted a clock before, by that device or, outside every window, with an error |
| `Bus.EveryGrantIsAnswered` | src/main/scala/bus/Bus.scala:82-121 | On every run, for any number of hosts and devices that answer in the next clock, each grant is answered exactly once |
| `Bus.SocWindows` | src/main/scala/Soc.scala:20-88 | The system's four windows are the intervals they are meant to be and do not overlap |
| `Bus.SimpleBus.Clock` | src/main/scala/bus/Bus.scala:60-121 | The bus registers and outputs step as these functions |

## Left out

- Reset to the first fetch, and `stall`: `started` has reset value false and never goes high (src/main/scala/core/Core.scala:50), so runs begin from `Execution.Started`.
- The value of x0: `Coherent` and `Execution.StartsCoherent` take it to be 0, but it is an ordinary memory cell that no reset clears and no write reaches (src/main/scala/core/RegFile.scala:21-28).
- Illegal instructions and faulting or word-crossing accesses in the pipeline theorems: the default row and stores do not kill the younger instruction, so those traps are not precise in the hardware; accesses inside one word at any address are covered.
- The misalignment check on data addresses: the address is masked before it (src/main/scala/core/Execute.scala:70), so it never fires.
- CSR immediate forms in the reference: their write data is always the rs1 register (src/main/scala/core/Core.scala:120). Their rows are in the table.
- User mode, in which every instruction but a trap or return traps; interrupts, WFI and SRET; counters, mip and the read-only CSRs are in the CSR unit but not in the reference state.
- Devices other than the RAM behind the core's data port: an access outside the RAM window answers with an error there; `Bus` has the routing for any list of devices.
- Verilog X values; a RAM index is taken modulo the array size.
- The Uart register wrapper, the timer, GPIO, FPGA tops and board files; changing the divisor in the middle of a frame (the step functions allow it, the frame theorems fix it).
- Bytes loaded while the receiver is still busy with the frame before: `Reports.NextFrame` starts from rest.
- Metastability on the serial line: both ends of a link count the same clock.
- Data widths other than 8: the receiver's shift is written for 8 bits (src/main/scala/sys/uart/Rx.scala:44).
- CoreList.BenchState: any 16-bit number; inside the list benchmark the other two benchmarks' results are arbitrary, as they touch no list.
- CoreList.BenchMatrix: any 16-bit number; the matrix code is not part of this model.
- core_list_mergesort on an empty list, which writes through a null tail (sw/coremark/core_list_join.c:583): lists here have a cell.
- core_list_init and core_list_insert_new: a list in strictly increasing order of index is where the benchmark starts here.
- Format: arguments that are missing or of the wrong kind read as 0 or nothing, where C leaves them undefined; a returned length is not cut to an int.
- i2a on the most negative int, which overflows in C, is taken to wrap.
- Two's-complement wrap of an idx difference: indices are 16-bit numbers, so differences fit an int.
- core_matrix.c, core_main.c, cvt.c, ee_printf.c and the register accessors of librtor.
