/** What the controller sends and receives: the trace of register accesses, the word
    sequences of the two multi-word commands (TLB entry, DMA benchmark) with their inverses,
    and the completion poll of a benchmark over a finite stream of cycle-counter reads. */
module Commands {

  import opened Wrappers
  import opened Words
  import opened RegisterMap

  /** One access to the control region: a 32-bit store to a register, or a load from one. */
  datatype Access = Store(reg: CtrlAddr, value: uint32) | Load(reg: CtrlAddr)

  /** The stores of `words` to `reg`, in order. */
  function ToReg(reg: CtrlAddr, words: seq<uint32>): seq<Access>
  {
    seq(|words|, i requires 0 <= i < |words| => Store(reg, words[i]))
  }

  /** `n` loads of the same register. */
  function Loads(reg: CtrlAddr, n: nat): seq<Access>
  {
    seq(n, _ => Load(reg))
  }

  /** The per-register view of a trace: the words stored to `reg`, in order. */
  function WritesTo(trace: seq<Access>, reg: CtrlAddr): (r: seq<uint32>)
    ensures |r| <= |trace|
    ensures forall w :: w in r ==> Store(reg, w) in trace
  {
    if trace == [] then []
    else if trace[0].Store? && trace[0].reg == reg then [trace[0].value] + WritesTo(trace[1..], reg)
    else WritesTo(trace[1..], reg)
  }

  /** The per-register view of a concatenation is the concatenation of the views. */
  lemma {:induction false} WritesToAppend(a: seq<Access>, b: seq<Access>, reg: CtrlAddr)
    ensures WritesTo(a + b, reg) == WritesTo(a, reg) + WritesTo(b, reg)
    decreases |a|
  {
    if a != [] {
      assert (a + b)[1..] == a[1..] + b;
      WritesToAppend(a[1..], b, reg);
    } else {
      assert a + b == b;
    }
  }

  /** Stores to one register show up in its own view, in order, and in no other view. */
  lemma {:induction false} WritesToToReg(reg: CtrlAddr, words: seq<uint32>, other: CtrlAddr)
    ensures WritesTo(ToReg(reg, words), other) == if other == reg then words else []
    decreases |words|
  {
    if words != [] {
      assert ToReg(reg, words)[1..] == ToReg(reg, words[1..]);
      WritesToToReg(reg, words[1..], other);
    }
  }

  /** Loads store nothing: they leave every register's view empty. */
  lemma {:induction false} WritesToLoads(reg: CtrlAddr, n: nat, other: CtrlAddr)
    ensures WritesTo(Loads(reg, n), other) == []
    decreases n
  {
    if n > 0 {
      assert Loads(reg, n)[1..] == Loads(reg, n - 1);
      WritesToLoads(reg, n - 1, other);
    }
  }

  /** Appending a command to one register extends that register's view by the command's
      words and leaves every other register's view as it was. */
  lemma AppendToRegister(trace: seq<Access>, reg: CtrlAddr, words: seq<uint32>, other: CtrlAddr)
    ensures WritesTo(trace + ToReg(reg, words), other)
         == WritesTo(trace, other) + (if other == reg then words else [])
  {
    WritesToAppend(trace, ToReg(reg, words), other);
    WritesToToReg(reg, words, other);
  }

  // ---------------------------------------------------------------- TLB entry

  /** The five words `writeTlb` stores: low and high half of the virtual address, low and
      high half of the physical address, then the base flag as 0 or 1. */
  function TlbWords(vaddr: uint64, paddr: uint64, isBase: bool): (r: seq<uint32>)
    ensures |r| == 5
    ensures Join64(r[1], r[0]) == vaddr && Join64(r[3], r[2]) == paddr
    ensures r[4] <= 1 && (r[4] == 1) == isBase
  {
    [Lo32(vaddr), Hi32(vaddr), Lo32(paddr), Hi32(paddr), BoolWord(isBase)]
  }

  /** The inverse of `TlbWords`: the entry a five-word TLB command encodes. */
  function DecodeTlb(w: seq<uint32>): Option<(uint64, uint64, bool)>
  {
    if |w| == 5 && w[4] <= 1 then Some((Join64(w[1], w[0]), Join64(w[3], w[2]), w[4] == 1))
    else None
  }

  /** The TLB command is exactly five words and decodes to the entry it was built from. */
  lemma TlbRoundTrip(vaddr: uint64, paddr: uint64, isBase: bool)
    ensures |TlbWords(vaddr, paddr, isBase)| == 5
    ensures DecodeTlb(TlbWords(vaddr, paddr, isBase)) == Some((vaddr, paddr, isBase))
  {
    SplitJoin(vaddr);
    SplitJoin(paddr);
  }

  /** Different TLB entries are sent as different word sequences. */
  lemma TlbWordsInjective(v1: uint64, p1: uint64, b1: bool, v2: uint64, p2: uint64, b2: bool)
    ensures TlbWords(v1, p1, b1) == TlbWords(v2, p2, b2) <==> (v1, p1, b1) == (v2, p2, b2)
  {
    TlbRoundTrip(v1, p1, b1);
    TlbRoundTrip(v2, p2, b2);
  }

  // ---------------------------------------------------------------- DMA benchmark

  /** The arguments of `runDmaBenchmark`. */
  datatype Benchmark = Benchmark(
    baseAddr: uint64,
    memorySize: uint64,
    numberOfAccesses: uint32,
    chunkLength: uint32,
    strideLength: uint32,
    op: MemoryOp)

  /** The eight configuration words `runDmaBenchmark` stores, in order. */
  function BenchWords(b: Benchmark): (r: seq<uint32>)
    ensures |r| == 8
    ensures Join64(r[1], r[0]) == b.baseAddr && Join64(r[3], r[2]) == b.memorySize
    ensures r[4] == b.numberOfAccesses && r[5] == b.chunkLength && r[6] == b.strideLength
    ensures r[7] == OpTag(b.op)
  {
    [Lo32(b.baseAddr), Hi32(b.baseAddr), Lo32(b.memorySize), Hi32(b.memorySize),
     b.numberOfAccesses, b.chunkLength, b.strideLength, OpTag(b.op)]
  }

  /** The inverse of `BenchWords`: the benchmark an eight-word command encodes. */
  function DecodeBench(w: seq<uint32>): Option<Benchmark>
  {
    if |w| == 8 && w[7] <= 1 then
      Some(Benchmark(Join64(w[1], w[0]), Join64(w[3], w[2]), w[4], w[5], w[6],
                     if w[7] == 0 then READ else WRITE))
    else None
  }

  /** The benchmark command is exactly eight words and decodes to its arguments. */
  lemma BenchRoundTrip(b: Benchmark)
    ensures |BenchWords(b)| == 8
    ensures DecodeBench(BenchWords(b)) == Some(b)
  {
    SplitJoin(b.baseAddr);
    SplitJoin(b.memorySize);
  }

  /** Different benchmark arguments are sent as different word sequences. */
  lemma BenchWordsInjective(b1: Benchmark, b2: Benchmark)
    ensures BenchWords(b1) == BenchWords(b2) <==> b1 == b2
  {
    BenchRoundTrip(b1);
    BenchRoundTrip(b2);
  }

  /** A READ and a WRITE benchmark with the same parameters are sent with the same first
      seven words; they differ in the last word, the operation tag, alone. */
  lemma BenchDirectionOnlyInTag(b: Benchmark, op: MemoryOp)
    ensures BenchWords(b)[..7] == BenchWords(b.(op := op))[..7]
    ensures BenchWords(b)[7] == BenchWords(b.(op := op))[7] <==> b.op == op
  {
  }

  // ---------------------------------------------------------------- completion poll

  /** What a benchmark poll yields: the cycle count it returns, if it returns while answers
      last; how many of the device's answers it consumed; and how many loads of the cycle
      counter it performed (two per poll, whether or not the device's answer is known). */
  datatype PollOutcome = PollOutcome(cycles: Option<uint64>, consumed: nat, loads: nat)

  /** The lower word of the `i`-th poll (each poll reads the lower word, then the upper). */
  function LowerAt(s: seq<uint32>, i: nat): uint32
    requires 2 * i + 1 < |s|
  {
    s[2 * i]
  }

  /** The benchmark poll over the words the cycle-counter register answers, in order:
      it returns the joined pair of the first poll whose lower word is nonzero. When the
      answers run out before a complete (lower, upper) poll saw a nonzero lower word, the
      model stops after that last poll: no cycle count. */
  function Poll(s: seq<uint32>): (r: PollOutcome)
    ensures r.consumed <= |s|
    ensures r.loads % 2 == 0 && r.consumed <= r.loads
    ensures r.cycles.None? ==> r.consumed == |s| && r.loads == 2 * (|s| / 2) + 2
    ensures r.cycles.Some? ==> r.loads == r.consumed
    ensures r.cycles.Some? ==>
      2 <= r.consumed && r.consumed % 2 == 0 && s[r.consumed - 2] != 0 &&
      r.cycles.value == Join64(s[r.consumed - 1], s[r.consumed - 2])
    decreases |s|
  {
    if |s| < 2 then PollOutcome(None, |s|, 2)
    else if s[0] != 0 then PollOutcome(Some(Join64(s[1], s[0])), 2, 2)
    else
      var rest := Poll(s[2..]);
      PollOutcome(rest.cycles, rest.consumed + 2, rest.loads + 2)
  }

  /** The poll returns a cycle count exactly when some complete poll saw a nonzero lower
      word; while every lower word read is 0 it does not return. */
  lemma {:induction false} PollReturnsIff(s: seq<uint32>)
    ensures Poll(s).cycles.Some? <==> exists i :: 0 <= i < |s| / 2 && LowerAt(s, i) != 0
    decreases |s|
  {
    if |s| >= 2 {
      var t := s[2..];
      PollReturnsIff(t);
      if s[0] == 0 {
        forall i | 0 <= i < |t| / 2
          ensures LowerAt(t, i) == LowerAt(s, i + 1)
        {
        }
        if Poll(s).cycles.Some? {
          var i :| 0 <= i < |t| / 2 && LowerAt(t, i) != 0;
          assert LowerAt(s, i + 1) != 0;
        } else {
          forall i | 0 <= i < |s| / 2
            ensures LowerAt(s, i) == 0
          {
            if i > 0 {
              assert LowerAt(s, i) == LowerAt(t, i - 1);
            }
          }
        }
      } else {
        assert LowerAt(s, 0) != 0;
      }
    }
  }

  /** The poll stops at the first nonzero lower word: every earlier poll read 0. */
  lemma {:induction false} PollStopsAtFirst(s: seq<uint32>)
    requires Poll(s).cycles.Some?
    ensures forall i :: 0 <= i < (Poll(s).consumed - 2) / 2 ==> LowerAt(s, i) == 0
    decreases |s|
  {
    if s[0] == 0 {
      var t := s[2..];
      PollStopsAtFirst(t);
      forall i | 0 <= i < (Poll(s).consumed - 2) / 2
        ensures LowerAt(s, i) == 0
      {
        if i > 0 {
          assert LowerAt(s, i) == LowerAt(t, i - 1);
        }
      }
    }
  }

  /** A returned cycle count has its low word from the deciding lower read, which is
      nonzero, and its high word from the upper read after it. So a count whose low 32 bits
      are 0 can never be reported. */
  lemma PollResultHalves(s: seq<uint32>)
    requires Poll(s).cycles.Some?
    ensures Lo32(Poll(s).cycles.value) == s[Poll(s).consumed - 2] != 0
    ensures Hi32(Poll(s).cycles.value) == s[Poll(s).consumed - 1]
  {
    var k := Poll(s).consumed;
    JoinSplit(s[k - 1], s[k - 2]);
  }

  /** When the answers end inside a poll, after its lower word, the model stops there with
      no cycle count, even if that lower word is nonzero: the driver would go on to load the
      upper word and return. */
  lemma PollOddTail(u: uint32, lower: uint32)
    ensures Poll([0, u, lower]) == PollOutcome(None, 3, 4)
  {
    var s: seq<uint32> := [0, u, lower];
    assert s[2..] == [lower];
  }

  /** A device that answers lower = 0 on the first two polls and lower = 5, upper = 0 on
      the third makes the poll return 5 after six loads, consuming six words. */
  lemma PollThirdTime(u1: uint32, u2: uint32)
    ensures Poll([0, u1, 0, u2, 5, 0]) == PollOutcome(Some(5), 6, 6)
  {
    var s: seq<uint32> := [0, u1, 0, u2, 5, 0];
    assert s[2..] == [0, u2, 5, 0];
    assert s[2..][2..] == [5, 0];
    assert Poll([5, 0]) == PollOutcome(Some(5), 2, 2);
    assert Poll(s[2..]) == PollOutcome(Some(5), 4, 4);
  }
}
