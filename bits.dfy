/** Fixed-width integers of the interpreter: `uint8_t` and `uint16_t` values,
    kept as bounded integers so that every wrap-around is written out, and the
    bitwise operators on them defined one bit at a time. */
module Bits {

  /** A `uint8_t`. */
  type byte = x: int | 0 <= x < 0x100

  /** A `uint16_t`. */
  type word = x: int | 0 <= x < 0x1_0000

  function Pow2(k: nat): (r: nat)
    ensures r >= 1
  {
    if k == 0 then 1 else 2 * Pow2(k - 1)
  }

  /** The low `k` bits of `a | b`, least significant bit first. */
  function OrBits(a: nat, b: nat, k: nat): (r: nat)
    ensures r < Pow2(k)
  {
    if k == 0 then 0
    else (if a % 2 == 1 || b % 2 == 1 then 1 else 0) + 2 * OrBits(a / 2, b / 2, k - 1)
  }

  /** The low `k` bits of `a & b`. */
  function AndBits(a: nat, b: nat, k: nat): (r: nat)
    ensures r < Pow2(k)
  {
    if k == 0 then 0
    else (if a % 2 == 1 && b % 2 == 1 then 1 else 0) + 2 * AndBits(a / 2, b / 2, k - 1)
  }

  /** The low `k` bits of `a ^ b`. */
  function XorBits(a: nat, b: nat, k: nat): (r: nat)
    ensures r < Pow2(k)
  {
    if k == 0 then 0
    else (if a % 2 != b % 2 then 1 else 0) + 2 * XorBits(a / 2, b / 2, k - 1)
  }

  /** C's `a | b` on two bytes. */
  function Or8(a: byte, b: byte): byte
  {
    OrBits(a, b, 8)
  }

  /** C's `a & b` on two bytes. */
  function And8(a: byte, b: byte): byte
  {
    AndBits(a, b, 8)
  }

  /** C's `a ^ b` on two bytes. */
  function Xor8(a: byte, b: byte): byte
  {
    XorBits(a, b, 8)
  }

  /** `(b >> (7 - col)) & 1 == 1` for a sprite byte: bit `col` counted from the most significant. */
  predicate BitAt(b: byte, col: nat)
    requires col < 8
  {
    (b / Pow2(7 - col)) % 2 == 1
  }

  /** A byte holds 8 bits. */
  lemma Pow2Byte()
    ensures Pow2(8) == 0x100
  {
  }

  /** Reduction modulo 2^16, as assignment to `uint16_t` does (also for a
      negative intermediate such as `PC - 2`). */
  function Wrap16(v: int): word
  {
    v % 0x1_0000
  }

  lemma {:induction false} XorZeroBits(a: nat, k: nat)
    requires a < Pow2(k)
    ensures XorBits(a, 0, k) == a
  {
    if k > 0 {
      XorZeroBits(a / 2, k - 1);
    }
  }

  /** In the low `k` bits, XOR with 1 flips the lowest bit only. */
  lemma {:induction false} XorOneBits(a: nat, k: nat)
    requires 0 < k && a < Pow2(k)
    ensures XorBits(a, 1, k) == if a % 2 == 0 then a + 1 else a - 1
  {
    XorZeroBits(a / 2, k - 1);
  }

  /** In the low `k` bits, XOR with 1 undoes itself. */
  lemma XorOneTwiceBits(a: nat, k: nat)
    requires 0 < k && a < Pow2(k)
    ensures XorBits(XorBits(a, 1, k), 1, k) == a
  {
    XorOneBits(a, k);
    XorOneBits(XorBits(a, 1, k), k);
  }

  /** XOR with 1 undoes itself, so a pixel toggled twice is restored. */
  lemma XorOneTwice(v: byte)
    ensures Xor8(Xor8(v, 1), 1) == v
  {
    Pow2Byte();
    XorOneTwiceBits(v, 8);
  }

  /** On a pixel that is 0 or 1, XOR with 1 turns it into the other. */
  lemma XorOneOnPixel(v: byte)
    requires v <= 1
    ensures Xor8(v, 1) == 1 - v
  {
    Pow2Byte();
    XorOneBits(v, 8);
  }
}
