/** Fixed-width unsigned words and the 64-bit split/join arithmetic of the controller.
    Words are modelled as bounded integers; every truncation the C++ performs by a cast
    is written out below. */
module Words {

  const TWO_32: int := 0x1_0000_0000

  type uint8 = x: int | 0 <= x < 0x100
  type uint32 = x: int | 0 <= x < 0x1_0000_0000
  type uint64 = x: int | 0 <= x < 0x1_0000_0000_0000_0000

  /** `(uint32_t) x` for a 64-bit unsigned x: keeps the low 32 bits, that is, the one
      32-bit word that differs from x by a multiple of 2^32. */
  function Lo32(x: uint64): (r: uint32)
    ensures (x - r) % TWO_32 == 0
  {
    x % TWO_32
  }

  /** `(uint32_t) (x >> 32)` for a 64-bit unsigned x: the high 32 bits, that is, the
      number of whole multiples of 2^32 in x. */
  function Hi32(x: uint64): (r: uint32)
    ensures r * TWO_32 <= x < (r + 1) * TWO_32
  {
    x / TWO_32
  }

  /** `(upper << 32) | lower` on 64-bit words holding two 32-bit reads: the shifted upper
      word and the lower word occupy disjoint bits, so the OR is a sum. */
  function Join64(upper: uint32, lower: uint32): (r: uint64)
    ensures r % TWO_32 == lower
    ensures r / TWO_32 == upper
  {
    upper * TWO_32 + lower
  }

  /** `(uint32_t) b` for a C++ bool. */
  function BoolWord(b: bool): (r: uint32)
    ensures r <= 1
    ensures (r == 1) == b
  {
    if b then 1 else 0
  }

  /** Splitting a 64-bit value into its halves and joining them again gives the value back. */
  lemma SplitJoin(x: uint64)
    ensures Join64(Hi32(x), Lo32(x)) == x
  {
  }

  /** Joining two words and splitting the result gives back both words. */
  lemma JoinSplit(upper: uint32, lower: uint32)
    ensures Lo32(Join64(upper, lower)) == lower
    ensures Hi32(Join64(upper, lower)) == upper
  {
  }

  /** The split is injective: two values with the same halves are equal. */
  lemma SplitInjective(x: uint64, y: uint64)
    ensures (Lo32(x) == Lo32(y) && Hi32(x) == Hi32(y)) <==> x == y
  {
    SplitJoin(x);
    SplitJoin(y);
  }
}
