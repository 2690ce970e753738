/** The register controller: every operation is a fixed, ordered sequence of 32-bit stores
    and loads on the control region. The region is modelled by what the controller does to
    it: `trace` logs every store and every load, in the order they happen, and `input`
    holds the words the device will answer to the next loads, in order. Each method is one
    atomic step on this state, as the driver's global lock guarantees. */
module Controller {

  import opened Wrappers
  import opened Words
  import opened RegisterMap
  import opened Commands

  class FpgaController {

    /** Every access so far, stores and loads interleaved in program order. */
    var trace: seq<Access>
    /** The device's answers to the loads still to come; when it is exhausted, the model
        no longer knows what the device answers. */
    var input: seq<uint32>

    /** A controller over a freshly mapped control region whose device will answer
        `answers` to its loads. */
    constructor (answers: seq<uint32>)
      ensures trace == [] && input == answers
    {
      trace := [];
      input := answers;
    }

    /** The state after a benchmark with arguments `b` has run, from the state (`t0`, `s0`):
        its eight words stored to DMA_BENCH, followed by the poll's loads of
        DMA_BENCH_CYCLES. */
    ghost predicate RanBenchmark(b: Benchmark, t0: seq<Access>, s0: seq<uint32>)
      reads this
    {
      trace == t0 + ToReg(DMA_BENCH, BenchWords(b)) + Loads(DMA_BENCH_CYCLES, Poll(s0).loads) &&
      input == s0[Poll(s0).consumed..]
    }

    // ------------------------------------------------------------ register primitives

    /** `writeReg(addr, uint32_t)`: one store of `value` to `addr`. */
    method WriteReg(addr: CtrlAddr, value: uint32)
      modifies this
      ensures trace == old(trace) + [Store(addr, value)]
      ensures input == old(input)
    {
      trace := trace + [Store(addr, value)];
    }

    /** `writeReg(addr, uint8_t)`: one store of the byte, zero-extended to 32 bits. */
    method WriteByteReg(addr: CtrlAddr, value: uint8)
      modifies this
      ensures trace == old(trace) + [Store(addr, value)]
      ensures trace[|trace| - 1].value < 0x100
      ensures input == old(input)
    {
      WriteReg(addr, value);
    }

    /** `readReg(addr)`: one load from `addr`, answered by the next word of the device;
        `None` when the model holds no further answer. The load happens either way. */
    method ReadReg(addr: CtrlAddr) returns (v: Option<uint32>)
      modifies this
      ensures trace == old(trace) + [Load(addr)]
      ensures old(input) == [] ==> v == None && input == old(input)
      ensures old(input) != [] ==> v == Some(old(input)[0]) && input == old(input)[1..]
    {
      trace := trace + [Load(addr)];
      if input == [] {
        v := None;
      } else {
        v := Some(input[0]);
        input := input[1..];
      }
    }

    // ------------------------------------------------------------ configuration

    /** `writeTlb`: the five TLB words, all to TLB, and nothing to any other register. */
    method WriteTlb(vaddr: uint64, paddr: uint64, isBase: bool)
      modifies this
      ensures trace == old(trace) + ToReg(TLB, TlbWords(vaddr, paddr, isBase))
      ensures WritesTo(trace, TLB) == WritesTo(old(trace), TLB) + TlbWords(vaddr, paddr, isBase)
      ensures forall r :: r != TLB ==> WritesTo(trace, r) == WritesTo(old(trace), r)
      ensures input == old(input)
    {
      WriteReg(TLB, Lo32(vaddr));
      WriteReg(TLB, Hi32(vaddr));
      WriteReg(TLB, Lo32(paddr));
      WriteReg(TLB, Hi32(paddr));
      WriteReg(TLB, BoolWord(isBase));
      assert trace == old(trace) + ToReg(TLB, TlbWords(vaddr, paddr, isBase));
      forall r
        ensures WritesTo(trace, r)
             == WritesTo(old(trace), r) + (if r == TLB then TlbWords(vaddr, paddr, isBase) else [])
      {
        AppendToRegister(old(trace), TLB, TlbWords(vaddr, paddr, isBase), r);
      }
    }

    /** `setIpAddr`: one store of the address, unchanged, to IPADDR. */
    method SetIpAddr(addr: uint32)
      modifies this
      ensures trace == old(trace) + [Store(IPADDR, addr)]
      ensures input == old(input)
    {
      WriteReg(IPADDR, addr);
    }

    /** `setBoardNumber`: one store of the 8-bit board number, zero-extended, to BOARDNUM. */
    method SetBoardNumber(num: uint8)
      modifies this
      ensures trace == old(trace) + [Store(BOARDNUM, num)]
      ensures trace[|trace| - 1].value < 0x100
      ensures input == old(input)
    {
      WriteByteReg(BOARDNUM, num);
    }

    /** `resetDmaReads`: one store of 1 to DMA_READS. */
    method ResetDmaReads()
      modifies this
      ensures trace == old(trace) + [Store(DMA_READS, 1)]
      ensures input == old(input)
    {
      WriteByteReg(DMA_READS, 1);
    }

    /** `resetDmaWrites`: one store of 1 to DMA_WRITES. */
    method ResetDmaWrites()
      modifies this
      ensures trace == old(trace) + [Store(DMA_WRITES, 1)]
      ensures input == old(input)
    {
      WriteByteReg(DMA_WRITES, 1);
    }

    // ------------------------------------------------------------ counters

    /** Two loads from `addr`, lower word then upper word, joined into 64 bits. */
    method ReadCounter(addr: CtrlAddr) returns (count: Option<uint64>)
      modifies this
      ensures trace == old(trace) + [Load(addr), Load(addr)]
      ensures |old(input)| >= 2 ==>
        count == Some(Join64(old(input)[1], old(input)[0])) && input == old(input)[2..]
      ensures |old(input)| < 2 ==> count == None && input == []
    {
      var lower := ReadReg(addr);
      var upper := ReadReg(addr);
      if lower.Some? && upper.Some? {
        count := Some(Join64(upper.value, lower.value));
      } else {
        count := None;
      }
    }

    /** `getDmaReads`: the 64-bit DMA read counter from two loads of DMA_READS. */
    method GetDmaReads() returns (count: Option<uint64>)
      modifies this
      ensures trace == old(trace) + [Load(DMA_READS), Load(DMA_READS)]
      ensures |old(input)| >= 2 ==>
        count == Some(Join64(old(input)[1], old(input)[0])) && input == old(input)[2..]
      ensures |old(input)| < 2 ==> count == None && input == []
    {
      count := ReadCounter(DMA_READS);
    }

    /** `getDmaWrites`: the 64-bit DMA write counter from two loads of DMA_WRITES. */
    method GetDmaWrites() returns (count: Option<uint64>)
      modifies this
      ensures trace == old(trace) + [Load(DMA_WRITES), Load(DMA_WRITES)]
      ensures |old(input)| >= 2 ==>
        count == Some(Join64(old(input)[1], old(input)[0])) && input == old(input)[2..]
      ensures |old(input)| < 2 ==> count == None && input == []
    {
      count := ReadCounter(DMA_WRITES);
    }

    // ------------------------------------------------------------ benchmarks

    /** `runDmaBenchmark`: store the eight configuration words to DMA_BENCH, then poll
        DMA_BENCH_CYCLES (lower word, then upper word) until the lower word is nonzero and
        return the joined pair. `None`: the device's answers ran out before a complete
        (lower, upper) poll saw a nonzero lower word; the driver would still be polling or,
        if the answers ended after a nonzero lower word, about to load its upper word and
        return. */
    method RunDmaBenchmark(baseAddr: uint64, memorySize: uint64, numberOfAccesses: uint32,
                           chunkLength: uint32, strideLength: uint32, op: MemoryOp)
      returns (cycles: Option<uint64>)
      modifies this
      ensures RanBenchmark(Benchmark(baseAddr, memorySize, numberOfAccesses, chunkLength, strideLength, op),
                           old(trace), old(input))
      ensures cycles == Poll(old(input)).cycles
      ensures WritesTo(trace, DMA_BENCH) == WritesTo(old(trace), DMA_BENCH)
        + BenchWords(Benchmark(baseAddr, memorySize, numberOfAccesses, chunkLength, strideLength, op))
      ensures forall r :: r != DMA_BENCH ==> WritesTo(trace, r) == WritesTo(old(trace), r)
    {
      ghost var b := Benchmark(baseAddr, memorySize, numberOfAccesses, chunkLength, strideLength, op);
      WriteReg(DMA_BENCH, Lo32(baseAddr));
      WriteReg(DMA_BENCH, Hi32(baseAddr));
      WriteReg(DMA_BENCH, Lo32(memorySize));
      WriteReg(DMA_BENCH, Hi32(memorySize));
      WriteReg(DMA_BENCH, numberOfAccesses);
      WriteReg(DMA_BENCH, chunkLength);
      WriteReg(DMA_BENCH, strideLength);
      WriteReg(DMA_BENCH, OpTag(op));
      ghost var configured := trace;
      assert configured == old(trace) + ToReg(DMA_BENCH, BenchWords(b));

      cycles := PollBenchCycles();

      forall r
        ensures WritesTo(trace, r)
             == WritesTo(old(trace), r) + (if r == DMA_BENCH then BenchWords(b) else [])
      {
        AppendToRegister(old(trace), DMA_BENCH, BenchWords(b), r);
        WritesToAppend(configured, Loads(DMA_BENCH_CYCLES, Poll(old(input)).loads), r);
        WritesToLoads(DMA_BENCH_CYCLES, Poll(old(input)).loads, r);
      }
    }

    /** The completion poll of `runDmaBenchmark`: pairs of loads from DMA_BENCH_CYCLES,
        lower word then upper word, until the lower word is nonzero. */
    method PollBenchCycles() returns (cycles: Option<uint64>)
      modifies this
      ensures cycles == Poll(old(input)).cycles
      ensures input == old(input)[Poll(old(input)).consumed..]
      ensures trace == old(trace) + Loads(DMA_BENCH_CYCLES, Poll(old(input)).loads)
    {
      ghost var s0 := input;
      ghost var n: nat, m: nat := 0, 0;
      cycles := None;
      var done := false;
      while !done
        invariant n <= |s0| && input == s0[n..]
        invariant trace == old(trace) + Loads(DMA_BENCH_CYCLES, m)
        invariant !done ==> cycles == None
        invariant !done ==>
          Poll(s0) == Poll(input).(consumed := Poll(input).consumed + n, loads := Poll(input).loads + m)
        invariant done ==> cycles == Poll(s0).cycles && n == Poll(s0).consumed && m == Poll(s0).loads
        decreases |input|, !done
      {
        ghost var s, m0 := input, m;
        var lower := ReadReg(DMA_BENCH_CYCLES);
        var upper := ReadReg(DMA_BENCH_CYCLES);
        m := m + 2;
        if lower.None? || upper.None? {
          n := |s0|;
          done := true;
        } else {
          assert lower.value == s[0] && upper.value == s[1] && input == s[2..];
          n := n + 2;
          if lower.value != 0 {
            cycles := Some(Join64(upper.value, lower.value));
            done := true;
          }
        }
        assert Loads(DMA_BENCH_CYCLES, m)
            == Loads(DMA_BENCH_CYCLES, m0) + [Load(DMA_BENCH_CYCLES), Load(DMA_BENCH_CYCLES)];
      }
    }

    /** `runSeqWriteBenchmark`: a WRITE benchmark with stride 0. */
    method RunSeqWriteBenchmark(baseAddr: uint64, memorySize: uint64, numberOfAccesses: uint32,
                                chunkLength: uint32)
      modifies this
      ensures RanBenchmark(Benchmark(baseAddr, memorySize, numberOfAccesses, chunkLength, 0, WRITE),
                           old(trace), old(input))
    {
      var _ := RunDmaBenchmark(baseAddr, memorySize, numberOfAccesses, chunkLength, 0, WRITE);
    }

    /** `runSeqReadBenchmark`: a READ benchmark with stride 0. */
    method RunSeqReadBenchmark(baseAddr: uint64, memorySize: uint64, numberOfAccesses: uint32,
                               chunkLength: uint32)
      modifies this
      ensures RanBenchmark(Benchmark(baseAddr, memorySize, numberOfAccesses, chunkLength, 0, READ),
                           old(trace), old(input))
    {
      var _ := RunDmaBenchmark(baseAddr, memorySize, numberOfAccesses, chunkLength, 0, READ);
    }

    /** `runRandomWriteBenchmark`: a WRITE benchmark with the caller's stride. */
    method RunRandomWriteBenchmark(baseAddr: uint64, memorySize: uint64, numberOfAccesses: uint32,
                                   chunkLength: uint32, strideLength: uint32)
      modifies this
      ensures RanBenchmark(Benchmark(baseAddr, memorySize, numberOfAccesses, chunkLength, strideLength, WRITE),
                           old(trace), old(input))
    {
      var _ := RunDmaBenchmark(baseAddr, memorySize, numberOfAccesses, chunkLength, strideLength, WRITE);
    }

    /** `runRandomReadBenchmark`: a READ benchmark with the caller's stride. */
    method RunRandomReadBenchmark(baseAddr: uint64, memorySize: uint64, numberOfAccesses: uint32,
                                  chunkLength: uint32, strideLength: uint32)
      modifies this
      ensures RanBenchmark(Benchmark(baseAddr, memorySize, numberOfAccesses, chunkLength, strideLength, READ),
                           old(trace), old(input))
    {
      var _ := RunDmaBenchmark(baseAddr, memorySize, numberOfAccesses, chunkLength, strideLength, READ);
    }

    // ------------------------------------------------------------ debug dumps

    /** `count` consecutive loads from `addr`, returning the device's answers in order;
        loads past the end of the known answers still happen but return no word. */
    method ReadBurst(addr: CtrlAddr, count: nat) returns (values: seq<uint32>)
      modifies this
      ensures |values| == if count <= |old(input)| then count else |old(input)|
      ensures values == old(input)[..|values|]
      ensures input == old(input)[|values|..]
      ensures trace == old(trace) + Loads(addr, count)
    {
      values := [];
      var i := 0;
      while i < count
        invariant i <= count
        invariant |values| == if i <= |old(input)| then i else |old(input)|
        invariant values == old(input)[..|values|] && input == old(input)[|values|..]
        invariant trace == old(trace) + Loads(addr, i)
      {
        var v := ReadReg(addr);
        if v.Some? {
          values := values + [v.value];
        }
        i := i + 1;
        assert Loads(addr, i) == Loads(addr, i - 1) + [Load(addr)];
      }
    }

    /** `printDebugRegs`: `numDebugRegs` loads from DEBUG; the words read are what the
        driver prints, one per debug register name. */
    method PrintDebugRegs(numDebugRegs: nat) returns (dump: seq<uint32>)
      modifies this
      ensures |dump| == if numDebugRegs <= |old(input)| then numDebugRegs else |old(input)|
      ensures dump == old(input)[..|dump|] && input == old(input)[|dump|..]
      ensures trace == old(trace) + Loads(DEBUG, numDebugRegs)
    {
      dump := ReadBurst(DEBUG, numDebugRegs);
    }

    /** `printDmaDebugRegs`: `numDmaDebugRegs` loads from DMA_DEBUG, as above. */
    method PrintDmaDebugRegs(numDmaDebugRegs: nat) returns (dump: seq<uint32>)
      modifies this
      ensures |dump| == if numDmaDebugRegs <= |old(input)| then numDmaDebugRegs else |old(input)|
      ensures dump == old(input)[..|dump|] && input == old(input)[|dump|..]
      ensures trace == old(trace) + Loads(DMA_DEBUG, numDmaDebugRegs)
    {
      dump := ReadBurst(DMA_DEBUG, numDmaDebugRegs);
    }
  }
}
