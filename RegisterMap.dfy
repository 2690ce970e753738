/** The controller's register map and the byte offset at which each register sits in the
    mapped control region. */
module RegisterMap {

  import opened Words

  /** The registers the controller addresses (the `ctrlAddr` enumeration). Their numeric
      values belong to the hardware contract and are not part of this model. */
  datatype CtrlAddr =
    | TLB
    | DMA_BENCH
    | DMA_BENCH_CYCLES
    | IPADDR
    | BOARDNUM
    | DMA_READS
    | DMA_WRITES
    | DEBUG
    | DMA_DEBUG

  /** Direction of a DMA benchmark (the `memoryOp` enumeration). */
  datatype MemoryOp = READ | WRITE

  /** `(uint32_t) op`, assuming READ = 0 and WRITE = 1. */
  function OpTag(op: MemoryOp): (r: uint32)
    ensures r <= 1
  {
    match op
    case READ => 0
    case WRITE => 1
  }

  /** `(uint32_t) addr << 5`: a 32-bit shift, so bits moved past bit 31 are dropped; the
      offset is the 32-bit word congruent to `id * 32` modulo 2^32. */
  function Offset(id: uint32): (r: uint32)
    ensures (id * 32 - r) % TWO_32 == 0
  {
    (id * 32) % TWO_32
  }

  /** Registers are 32 bytes apart, so every offset is 32-byte aligned. */
  lemma OffsetAligned(id: uint32)
    ensures Offset(id) % 32 == 0
  {
    var q := (id * 32) / TWO_32;
    assert id * 32 == q * TWO_32 + Offset(id);
    assert Offset(id) == 32 * (id - q * 0x800_0000);
  }

  /** For every id below 2^27 the shift loses nothing: the offset is `id * 32`. */
  lemma OffsetIsScaledId(id: uint32)
    requires id < 0x800_0000
    ensures Offset(id) == id * 32
  {
  }

  /** Distinct ids below 2^27 give distinct offsets, and equal offsets give equal ids. */
  lemma OffsetInjective(a: uint32, b: uint32)
    requires a < 0x800_0000 && b < 0x800_0000
    ensures Offset(a) == Offset(b) <==> a == b
  {
    OffsetIsScaledId(a);
    OffsetIsScaledId(b);
  }

  /** Above 2^27 the 32-bit shift wraps: an id and the id 2^27 higher share an offset. */
  lemma OffsetWraps(id: uint32)
    requires id + 0x800_0000 < TWO_32
    ensures Offset(id + 0x800_0000) == Offset(id)
  {
    assert (id + 0x800_0000) * 32 == id * 32 + TWO_32;
  }
}
