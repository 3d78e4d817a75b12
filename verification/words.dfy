/** 16-bit words of the LC-3 and the two pure helpers that work on them:
    sign extension of an instruction's immediate field, and the byte swap
    that turns a big-endian image word into host order. */
module Words {

  /** Number of words in the address space (the memory array's length). */
  const MEMORY_MAX: nat := 0x1_0000

  /** The bits from `n` up to 15, the ones sign extension may set. */
  function HighMask(n: nat): bv16
    requires n < 16
  {
    0xFFFF << n
  }

  /** `sign_extend(x, bit_count)`: replicates bit `bitCount - 1` of `x` into
      the bits above it. The shift `0xFFFF << 16` would overflow a C `int`,
      so the width is below 16 (the handlers use 5, 6, 9 and 11). */
  function SignExtend(x: bv16, bitCount: nat): (r: bv16)
    requires 0 < bitCount < 16
    // sign bit clear: the word is returned unchanged
    ensures (x >> (bitCount - 1)) & 1 == 0 ==> r == x
  {
    if (x >> (bitCount - 1)) & 1 == 1 then x | (0xFFFF << bitCount) else x
  }

  /** Sign extension keeps the low `bitCount` bits. */
  lemma {:induction false} SignExtendLowBits(x: bv16, bitCount: nat)
    requires 0 < bitCount < 16
    ensures SignExtend(x, bitCount) & !HighMask(bitCount) == x & !HighMask(bitCount)
  {
    var n := bitCount;
    if n == 1 {} else if n == 2 {} else if n == 3 {} else if n == 4 {} else if n == 5 {}
    else if n == 6 {} else if n == 7 {} else if n == 8 {} else if n == 9 {} else if n == 10 {}
    else if n == 11 {} else if n == 12 {} else if n == 13 {} else if n == 14 {} else {}
  }

  /** When the sign bit is set, every bit from `bitCount` up to 15 is set. */
  lemma SignExtendHighBits(x: bv16, bitCount: nat)
    requires 0 < bitCount < 16
    requires (x >> (bitCount - 1)) & 1 == 1
    ensures SignExtend(x, bitCount) & HighMask(bitCount) == HighMask(bitCount)
  {
  }

  /** A field of `bitCount` bits whose sign bit is set extends to its
      two's-complement value modulo 2^16. */
  lemma SignExtendNegative(x: bv16, bitCount: nat)
    requires 0 < bitCount < 16
    requires x >> bitCount == 0 && (x >> (bitCount - 1)) & 1 == 1
    ensures SignExtend(x, bitCount) == x - ((1 as bv16) << bitCount)
  {
  }

  // The `uint16_t` operations the instructions use. They are named so that
  // the same operation on equal operands is recognised as the same value.

  /** Addition modulo 2^16. */
  function WordAdd(a: bv16, b: bv16): bv16 {
    a + b
  }

  /** Bitwise and. */
  function WordAnd(a: bv16, b: bv16): bv16 {
    a & b
  }

  /** Bitwise complement. */
  function WordNot(a: bv16): bv16 {
    !a
  }

  /** The signed value of a 5-bit two's-complement field. */
  function Signed5(v: int): int
  {
    if v < 16 then v else v - 32
  }

  /** Every one of the 32 five-bit immediates extends to its signed value
      taken modulo 65536. */
  lemma SignExtendImm5(x: bv16)
    requires x < 32
    ensures SignExtend(x, 5) as int == Signed5(x as int) % 0x1_0000
  {
    assert SignExtend(x, 5) == if x >= 16 then x | 0xFFE0 else x;
  }

  /** `swap16`: exchanges the high and low bytes of a word. */
  function Swap16(x: bv16): (r: bv16)
    ensures r >> 8 == x & 0xFF
    ensures r & 0xFF == x >> 8
  {
    (x << 8) | (x >> 8)
  }

  /** Swapping twice gives back the word. */
  lemma Swap16Involution(x: bv16)
    ensures Swap16(Swap16(x)) == x
  {
  }

  /** The word that reading the two file bytes `b0` then `b1` into a
      `uint16_t` gives on a little-endian host. */
  function HostWord(b0: bv8, b1: bv8): bv16
  {
    ((b1 as bv16) << 8) | (b0 as bv16)
  }

  /** Swapping the host word yields the big-endian value of the two bytes
      in file order, which is what the image format stores. */
  lemma Swap16OfHostWord(b0: bv8, b1: bv8)
    ensures Swap16(HostWord(b0, b1)) >> 8 == b0 as bv16
    ensures Swap16(HostWord(b0, b1)) & 0xFF == b1 as bv16
  {
  }
}
