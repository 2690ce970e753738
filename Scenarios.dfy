/** Client runs of the controller against scripted devices: what a caller can conclude from
    the controller's contracts alone. */
module Scenarios {

  import opened Wrappers
  import opened Words
  import opened RegisterMap
  import opened Commands
  import opened Controller

  /** Resetting the DMA read counter and reading it back, against a device whose counter
      then reads 0, 0: the store of 1 comes before both loads, and the count is 0. */
  method ResetThenGetDmaReads() returns (count: Option<uint64>, log: seq<Access>)
    ensures count == Some(0)
    ensures log == [Store(DMA_READS, 1), Load(DMA_READS), Load(DMA_READS)]
  {
    var c := new FpgaController([0, 0]);
    c.ResetDmaReads();
    count := c.GetDmaReads();
    log := c.trace;
  }

  /** A benchmark against a device whose cycle counter reads lower = 0 on the first two
      polls and lower = 5, upper = 0 on the third: the benchmark returns 5, and the device
      received the benchmark's eight configuration words on DMA_BENCH. */
  method BenchmarkCompletesOnThirdPoll(b: Benchmark, u1: uint32, u2: uint32)
    returns (cycles: Option<uint64>, config: Option<Benchmark>)
    ensures cycles == Some(5)
    ensures config == Some(b)
  {
    var c := new FpgaController([0, u1, 0, u2, 5, 0]);
    cycles := c.RunDmaBenchmark(b.baseAddr, b.memorySize, b.numberOfAccesses,
                                b.chunkLength, b.strideLength, b.op);
    PollThirdTime(u1, u2);
    BenchRoundTrip(b);
    config := DecodeBench(WritesTo(c.trace, DMA_BENCH));
  }

  /** Writing a TLB entry on a fresh controller: the TLB register received a command that
      decodes to the entry, and the IP address register received nothing. */
  method TlbEntryReachesDevice(vaddr: uint64, paddr: uint64, isBase: bool)
    returns (entry: Option<(uint64, uint64, bool)>, others: seq<uint32>)
    ensures entry == Some((vaddr, paddr, isBase))
    ensures others == []
  {
    var c := new FpgaController([]);
    c.WriteTlb(vaddr, paddr, isBase);
    TlbRoundTrip(vaddr, paddr, isBase);
    entry := DecodeTlb(WritesTo(c.trace, TLB));
    others := WritesTo(c.trace, IPADDR);
  }
}
