# FPGA controller register protocol

This project models `fpga::FpgaController`, the control-plane driver of an FPGA DMA/network
controller. Every operation of the driver turns a request into a fixed, ordered sequence of
32-bit stores to and loads from registers of a memory-mapped control region. The model keeps
the region as two fields of a class:

- `trace`: every access in the order it happens, each a store `Store(register, word)` or a
  load `Load(register)`.
- `input`: the words the device will answer to the next loads.

Each method is one atomic step on this state. The driver gets that atomicity from its
process-wide lock.

Modules:

- `Words` covers 8/32/64-bit unsigned words. It also holds the split of a 64-bit value into
  `(uint32_t) x` and `(uint32_t) (x >> 32)`, and the join `(upper << 32) | lower`.
- `RegisterMap` covers the `ctrlAddr` and `memoryOp` enumerations and the byte offset
  `(uint32_t) addr << 5`. This shift is 32-bit, so it wraps for ids of 2^27 and above.
- `Commands` covers the access trace and its per-register view of stored words, the five-word TLB command, the
  eight-word benchmark command, the decoders that invert them, and the completion poll as a
  function over the words the cycle counter answers.
- `Controller` holds the class `FpgaController`, one method per operation of the driver.
- `Scenarios` holds client runs against scripted devices.

Every load goes into the trace, whether or not the model knows its answer. A load after `input` is
exhausted returns `None`. The real device always answers, so `None` only means the model
does not know the answer. For the benchmark, `None` means the answers ran out before a
complete (lower, upper) poll saw a nonzero lower word. At that point the driver would
still be polling, or, if the answers ended after a nonzero lower word, about to load its
upper word and return.

## Model

| member | source | states |
|---|---|---|
| Words.Lo32 | sw/src/fpga/FpgaController.cpp:61-64 | the cast `(uint32_t) x` keeps the 32-bit word that differs from x by a multiple of 2^32 |
| Words.Hi32 | sw/src/fpga/FpgaController.cpp:98-101 | `(uint32_t) (x >> 32)` is the number of whole multiples of 2^32 in x |
| Words.SplitJoin | sw/src/fpga/FpgaController.cpp:61-64 | joining the high and low halves of a 64-bit value gives the value back |
| Words.JoinSplit | sw/src/fpga/FpgaController.cpp:147-149 | the low 32 bits of the joined word are `lower` and the high 32 bits are `upper` |
| Words.SplitInjective | sw/src/fpga/FpgaController.cpp:98-101 | two 64-bit values are equal exactly when both of their halves are equal |
| Words.Join64 | sw/src/fpga/FpgaController.cpp:117 | the joined word's remainder mod 2^32 is the lower word and its quotient is the upper word |
| Words.BoolWord | sw/src/fpga/FpgaController.cpp:65 | a bool cast to `uint32_t` is 0 or 1, and 1 exactly when the bool is true |
| RegisterMap.OpTag | sw/src/fpga/FpgaController.cpp:105 | the operation tag word is at most 1 |
| RegisterMap.Offset | sw/src/fpga/FpgaController.cpp:195 | the byte offset `(uint32_t) addr << 5` is the 32-bit word congruent to `id * 32` modulo 2^32 |
| RegisterMap.OffsetAligned | sw/src/fpga/FpgaController.cpp:195 | every register offset is 32-byte aligned |
| RegisterMap.OffsetIsScaledId | sw/src/fpga/FpgaController.cpp:202 | for ids below 2^27 the offset is `id * 32` |
| RegisterMap.OffsetInjective | sw/src/fpga/FpgaController.cpp:220 | for ids below 2^27, two ids have equal offsets exactly when they are the same id |
| RegisterMap.OffsetWraps | sw/src/fpga/FpgaController.cpp:195 | the 32-bit shift wraps: ids 2^27 apart share an offset |
| Commands.WritesTo | sw/src/fpga/FpgaController.cpp:200-205 | a register's view is no longer than the trace, and every word in it was stored to that register |
| Commands.WritesToAppend | sw/src/fpga/FpgaController.cpp:200-205 | the per-register view of two traces one after the other is the two views one after the other |
| Commands.WritesToToReg | sw/src/fpga/FpgaController.cpp:200-205 | stores to one register appear in that register's view in order, and in no other view |
| Commands.WritesToLoads | sw/src/fpga/FpgaController.cpp:218-222 | loads add no word to any register's view |
| Commands.AppendToRegister | sw/src/fpga/FpgaController.cpp:55-65 | appending a command to one register extends only that register's view, by exactly the command's words |
| Commands.TlbWords | sw/src/fpga/FpgaController.cpp:61-65 | the five TLB words: the first two join back to vaddr, the next two join back to paddr, the last is 1 exactly when isBase and 0 otherwise |
| Commands.TlbRoundTrip | sw/src/fpga/FpgaController.cpp:61-65 | the TLB command is five words and decodes to the (vaddr, paddr, isBase) it was built from |
| Commands.TlbWordsInjective | sw/src/fpga/FpgaController.cpp:61-65 | different TLB entries are sent as different word sequences, and the same entry as the same sequence |
| Commands.BenchWords | sw/src/fpga/FpgaController.cpp:98-105 | the eight benchmark words: base address halves joining back to baseAddr, size halves joining back to memorySize, then access count, chunk length, stride and the operation tag |
| Commands.BenchRoundTrip | sw/src/fpga/FpgaController.cpp:98-105 | the benchmark command is eight words and decodes to the benchmark's arguments |
| Commands.BenchWordsInjective | sw/src/fpga/FpgaController.cpp:98-105 | two benchmarks are sent as the same eight words exactly when their arguments are equal |
| Commands.BenchDirectionOnlyInTag | sw/src/fpga/FpgaController.cpp:98-105 | READ and WRITE benchmarks with the same parameters agree on the first seven words; the eighth word differs exactly when the direction differs |
| Commands.Poll | sw/src/fpga/FpgaController.cpp:109-117 | the poll consumes no more words than the device answered and performs two loads per poll; without a result it has consumed them all; with one, it has consumed whole pairs, one per load, and the last pair's lower word is nonzero and the result is that pair joined |
| Commands.PollReturnsIff | sw/src/fpga/FpgaController.cpp:111-116 | the poll returns exactly when some complete poll reads a nonzero lower word; while every lower word is 0 it does not return |
| Commands.PollStopsAtFirst | sw/src/fpga/FpgaController.cpp:111-116 | the poll stops at the first nonzero lower word: every earlier poll read lower = 0 |
| Commands.PollResultHalves | sw/src/fpga/FpgaController.cpp:114-117 | a returned count has the deciding lower word as its low 32 bits, which are never 0, and the following upper word as its high 32 bits |
| Commands.PollOddTail | sw/src/fpga/FpgaController.cpp:111-116 | answers that end after a lower word give no cycle count, four loads and three words consumed, even when that lower word is nonzero |
| Commands.PollThirdTime | sw/src/fpga/FpgaController.cpp:109-117 | lower = 0 on two polls and then lower = 5, upper = 0 returns 5 after six loads |
| Controller.FpgaController.constructor | sw/src/fpga/FpgaController.cpp:41-45 | a new controller has an empty trace and will answer the given words in order |
| Controller.FpgaController.WriteReg | sw/src/fpga/FpgaController.cpp:200-205 | appends exactly one store of the word to the register to the trace; answers are unchanged |
| Controller.FpgaController.WriteByteReg | sw/src/fpga/FpgaController.cpp:193-198 | appends exactly one store of the byte, zero-extended, so the stored word is below 256 |
| Controller.FpgaController.ReadReg | sw/src/fpga/FpgaController.cpp:218-222 | appends exactly one load of the register to the trace; consumes and returns the next answer when there is one |
| Controller.FpgaController.WriteTlb | sw/src/fpga/FpgaController.cpp:55-69 | appends exactly the five TLB stores, all to TLB, in order, and no load; TLB's view grows by those words; every other register's view is unchanged |
| Controller.FpgaController.SetIpAddr | sw/src/fpga/FpgaController.cpp:125-130 | appends exactly one store of the address, unchanged, to IPADDR |
| Controller.FpgaController.SetBoardNumber | sw/src/fpga/FpgaController.cpp:132-136 | appends exactly one store of the board number, zero-extended and below 256, to BOARDNUM |
| Controller.FpgaController.ResetDmaReads | sw/src/fpga/FpgaController.cpp:138-142 | appends exactly one store of 1 to DMA_READS |
| Controller.FpgaController.ResetDmaWrites | sw/src/fpga/FpgaController.cpp:152-156 | appends exactly one store of 1 to DMA_WRITES |
| Controller.FpgaController.ReadCounter | sw/src/fpga/FpgaController.cpp:147-149 | appends exactly two loads of the register and nothing else; the result is the second answer joined above the first |
| Controller.FpgaController.GetDmaReads | sw/src/fpga/FpgaController.cpp:144-150 | appends exactly two loads of DMA_READS and nothing else, consumes two answers, and returns the second answer shifted above the first |
| Controller.FpgaController.GetDmaWrites | sw/src/fpga/FpgaController.cpp:158-164 | appends exactly two loads of DMA_WRITES and nothing else, consumes two answers, and returns the second answer shifted above the first |
| Controller.FpgaController.RunDmaBenchmark | sw/src/fpga/FpgaController.cpp:91-123 | appends the eight benchmark stores to DMA_BENCH followed by the poll's loads of DMA_BENCH_CYCLES, so every configuration store precedes the first load; changes no other register's view; the result is the poll's result over the device's answers |
| Controller.FpgaController.PollBenchCycles | sw/src/fpga/FpgaController.cpp:109-117 | the do-while loop returns the poll function's result, consumes exactly the words the poll consumes, and appends exactly the poll's DMA_BENCH_CYCLES loads and no store |
| Controller.FpgaController.RunSeqWriteBenchmark | sw/src/fpga/FpgaController.cpp:71-74 | the state after a WRITE benchmark with stride 0 and the caller's other arguments |
| Controller.FpgaController.RunSeqReadBenchmark | sw/src/fpga/FpgaController.cpp:76-79 | the state after a READ benchmark with stride 0 and the caller's other arguments |
| Controller.FpgaController.RunRandomWriteBenchmark | sw/src/fpga/FpgaController.cpp:81-84 | the state after a WRITE benchmark with the caller's stride, unchanged |
| Controller.FpgaController.RunRandomReadBenchmark | sw/src/fpga/FpgaController.cpp:86-89 | the state after a READ benchmark with the caller's stride, unchanged |
| Controller.FpgaController.ReadBurst | sw/src/fpga/FpgaController.cpp:171-175 | appends exactly `count` loads of the register and no store, returning the device's answers to them in order |
| Controller.FpgaController.PrintDebugRegs | sw/src/fpga/FpgaController.cpp:166-177 | appends exactly `numDebugRegs` loads of DEBUG and no store, returning the words the driver prints |
| Controller.FpgaController.PrintDmaDebugRegs | sw/src/fpga/FpgaController.cpp:179-190 | appends exactly `numDmaDebugRegs` loads of DMA_DEBUG and no store, returning the words the driver prints |
| Scenarios.ResetThenGetDmaReads | sw/src/fpga/FpgaController.cpp:138-150 | reset then read, against a counter that reads 0, 0, returns 0; the trace is the store of 1 to DMA_READS followed by two loads of DMA_READS |
| Scenarios.BenchmarkCompletesOnThirdPoll | sw/src/fpga/FpgaController.cpp:91-117 | lower = 0 twice and then lower = 5, upper = 0 returns 5, and DMA_BENCH received a command that decodes to the benchmark |
| Scenarios.TlbEntryReachesDevice | sw/src/fpga/FpgaController.cpp:55-65 | after `writeTlb` on a fresh controller, TLB's view decodes to the entry and IPADDR's view is empty |

## Left out

- Memory mapping: `mmap` in the constructor, and `munmap` with its error message in the destructor, are OS I/O. The constructor takes the device's answers instead.
- Byte order: `htols` is defined in `FpgaController.h`, which is not part of this model. The model treats it as the identity, as on a little-endian host, and proves nothing about byte order.
- Pointer arithmetic: the offset is modelled (`RegisterMap.Offset`), but not the address `m_base + offset` or the volatile access itself. The trace is indexed by register.
- Register ids: the numeric `ctrlAddr` values are in `FpgaController.h`, which is not part of this model. The offset lemmas are stated over any 32-bit id. The trace is keyed by register, so the class takes distinct registers to reach distinct device words; `RegisterMap.OffsetInjective` shows this only for ids below 2^27.
- Operation tags: the `memoryOp` values are in the same header. `OpTag` assumes READ = 0 and WRITE = 1. `OpTag`'s bound, `DecodeBench` and `BenchRoundTrip` rely on these exact values. `BenchWordsInjective` and `BenchDirectionOnlyInTag` hold for any two distinct tags.
- Concurrency: the static `ctrl_mutex` and every `lock_guard` are left out. Each method is one atomic step, so no two operations interleave their stores. Torn reads of a counter that the hardware updates between the two loads are not modelled either.
- Device reaction: the device's answers are a stream fixed when the controller is built. They do not depend on the stores before them, so the model does not show, for example, that a reset store makes the counter read 0; the trace records only that the store came first.
- Timing: the one-second `sleep_for` inside the poll is left out.
- Controller.FpgaController.PollBenchCycles: the model polls over a finite answer stream. It does not model polling forever when no answer has a nonzero lower word; it returns `None` instead. It also returns `None` when the answers end right after a nonzero lower word, whose upper word lies beyond the answers; the driver would load that upper word and return (`Commands.PollOddTail`).
- Controller.FpgaController.RunSeqWriteBenchmark: returns no value. The C++ wrapper declares `uint64_t` but has no `return` statement, so its result is undefined. The model states only the delegated call and its effect on the device.
- Controller.FpgaController.RunSeqReadBenchmark: returns no value, for the same reason.
- Controller.FpgaController.RunRandomWriteBenchmark: returns no value, for the same reason.
- Controller.FpgaController.RunRandomReadBenchmark: returns no value, for the same reason.
- Console output: `printDebugRegs` and `printDmaDebugRegs` print to `std::cout`. The model returns the words read instead; the `RegNames` and `DmaRegNames` labels and the counts `numDebugRegs` and `numDmaDebugRegs` come from the unseen header, so the counts are parameters.
- The commented-out 64-bit `writeReg` is dead code and is not modelled.
- The `PRINT_DEBUG` printf lines are compiled out and are not modelled.
- Word widths: `unsigned long` addresses in `writeTlb` are taken as 64 bits, as on LP64 hosts.
- Known limitation: a cycle count whose low 32 bits are 0 can never be reported by the poll (`Commands.PollResultHalves`). For such a count the driver polls forever. The driver has no other completion signal; the model keeps that behaviour.
