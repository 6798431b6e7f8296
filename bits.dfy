/** The mask tricks of the vector engine (lib/collatz_simd.cpp) on 64-bit lanes, with a
    lane an unsigned word read as a natural below 2^64. AVX2 has only a signed 64-bit
    compare, so unsigned a > b is computed on operands whose sign bit is flipped; a lane's
    oddness is spread to a whole-lane mask by a left shift by 63 and an arithmetic right
    shift by 63; NEON tests the low bit directly. */
module Bits {
  import opened Words
  import opened Collatz

  /** Bit 63, the sign bit of a lane. */
  const SIGN: nat := 0x8000_0000_0000_0000

  /** A comparison or test result as a lane mask: all ones for true, zero for false. */
  function Mask(b: bool): u64
  {
    if b then UINT64_MAX else 0
  }

  /** The two's complement reading of a lane, as the signed intrinsics see it. */
  function Signed(a: u64): int
  {
    if a < SIGN then a else a - TWO64
  }

  /** x ^ 2^63: the low 63 bits are kept and bit 63 is inverted. */
  function FlipSign(a: u64): u64
  {
    if a < SIGN then a + SIGN else a - SIGN
  }

  /** _mm256_cmpgt_epi64: a signed comparison, lane by lane. */
  function CmpGtSigned(a: u64, b: u64): u64
  {
    Mask(Signed(a) > Signed(b))
  }

  /** cmpgt_u64: flip the sign bit of both operands, then compare signed. The trick is
      exactly unsigned comparison, on every pair of lanes. */
  function CmpGtU64(a: u64, b: u64): (r: u64)
    ensures r == Mask(a > b)
  {
    FlipSignSigned(a);
    FlipSignSigned(b);
    CmpGtSigned(FlipSign(a), FlipSign(b))
  }

  /** Flipping the sign bit moves [0, 2^63) onto the negative half and [2^63, 2^64) onto
      the non-negative half, each in order. */
  lemma {:induction false} FlipSignSigned(a: u64)
    ensures Signed(FlipSign(a)) == a - SIGN
  {
  }

  /** V << 63 on a 64-bit lane: only bit 0 survives, moved to bit 63. */
  function Shl63(v: u64): u64
  {
    (v * SIGN) % TWO64
  }

  /** _mm256_srai_epi64 by 63 (the AVX2 code's arithmetic shift): the two's complement
      value divided by 2^63 and rounded down, which is -1 or 0, stored back in 64 bits. */
  function Sra63(x: u64): u64
  {
    (Signed(x) / SIGN) % TWO64
  }

  /** vtstq_u64(V, 1): all ones where V & 1, the low bit, is nonzero. */
  function TestLow(v: u64): u64
  {
    Mask(v % 2 != 0)
  }

  lemma {:induction false} Shl63LowBit(v: u64)
    ensures Shl63(v) == (v % 2) * SIGN
  {
    var q, r := v / 2, v % 2;
    assert v * SIGN == q * TWO64 + r * SIGN;
    DivModUnique(v * SIGN, q, r * SIGN, TWO64);
  }

  lemma {:induction false} Sra63Sign(x: u64)
    ensures Sra63(x) == Mask(x >= SIGN)
  {
    if x < SIGN {
      assert Signed(x) / SIGN == 0;
    } else {
      assert Signed(x) == x - TWO64;
      assert (x - TWO64) / SIGN == -1;
    }
  }

  /** The AVX2 oddness mask (V << 63) >> 63: all ones exactly for an odd V, the same mask
      as NEON's vtstq_u64(V, 1). */
  function OddMask(v: u64): (r: u64)
    ensures r == Mask(v % 2 == 1) && r == TestLow(v)
  {
    Shl63LowBit(v);
    Sra63Sign(Shl63(v));
    Sra63(Shl63(v))
  }

  // ---------------------------------------------------------------- lane masks

  /** Bitwise and of two unsigned words. */
  function BitAnd(a: nat, b: nat): (r: nat)
    ensures r <= a && r <= b
  {
    if a == 0 || b == 0 then 0
    else 2 * BitAnd(a / 2, b / 2) + (if a % 2 == 1 && b % 2 == 1 then 1 else 0)
  }

  /** A whole-lane mask, as the comparisons and tests produce. */
  predicate IsMask(m: nat)
  {
    m == 0 || m == UINT64_MAX
  }

  /** vbslq_u64(mask, x, y): the bits of x where mask is set, of y where it is clear. On a
      whole-lane mask this picks x or y outright. */
  function Bsl(mask: u64, x: u64, y: u64): (r: u64)
    requires IsMask(mask)
    ensures r == if mask == UINT64_MAX then x else y
  {
    AndMask(x, mask == UINT64_MAX);
    AndMask(y, mask == 0);
    BitOr(BitAnd(mask, x), BitAnd(UINT64_MAX - mask, y))
  }

  /** _mm256_blendv_epi8(a, b, mask): b where the mask is set, a where it is clear (the
      byte-wise selection of the intrinsic is lane-wise on a whole-lane mask). */
  function Blendv(a: u64, b: u64, mask: u64): (r: u64)
    requires IsMask(mask)
    ensures r == if mask == UINT64_MAX then b else a
  {
    Bsl(mask, b, a)
  }

  /** Every bit of UINT64_MAX is set: it is one less than a power of two. */
  lemma {:induction false} OnesPow2()
    ensures IsPow2(UINT64_MAX + 1)
  {
    Times65536(1);
    Times65536(0x1_0000);
    Times65536(0x1_0000_0000);
    Times65536(0x1_0000_0000_0000);
  }

  lemma {:induction false} Times65536(n: nat)
    requires IsPow2(n)
    ensures IsPow2(0x1_0000 * n)
  {
    Times16(n);
    Times16(16 * n);
    Times16(0x100 * n);
    Times16(0x1000 * n);
  }

  lemma {:induction false} Times16(n: nat)
    requires IsPow2(n)
    ensures IsPow2(16 * n)
  {
    assert IsPow2(2 * n);
    assert (4 * n) / 2 == 2 * n;
    assert (8 * n) / 2 == 4 * n;
    assert (16 * n) / 2 == 8 * n;
  }

  /** And with a word of all ones below a power of two keeps a smaller word whole. */
  lemma {:induction false} BitAndOnes(a: nat, m: nat)
    requires IsPow2(m + 1) && a <= m
    ensures BitAnd(a, m) == a && BitAnd(m, a) == a
  {
    if a > 0 {
      BitAndOnes(a / 2, m / 2);
    }
  }

  /** Masking a lane: all ones keep it, zero clears it. */
  lemma {:induction false} AndMask(x: u64, c: bool)
    ensures BitAnd(x, Mask(c)) == (if c then x else 0)
    ensures BitAnd(Mask(c), x) == (if c then x else 0)
  {
    if c {
      OnesPow2();
      BitAndOnes(x, UINT64_MAX);
    }
  }

  lemma {:induction false} BitOrSelf(a: nat)
    ensures BitOr(a, a) == a
  {
    if a > 0 {
      BitOrSelf(a / 2);
    }
  }

  /** The and and the or of two lane masks are the masks of the conjunction and the
      disjunction. */
  lemma {:induction false} MaskLogic(c1: bool, c2: bool)
    ensures BitAnd(Mask(c1), Mask(c2)) == Mask(c1 && c2)
    ensures BitOr(Mask(c1), Mask(c2)) == Mask(c1 || c2)
  {
    AndMask(Mask(c2), c1);
    BitOrSelf(UINT64_MAX);
  }

  /** vandq_u64 / _mm256_and_si256 of two masks. */
  function AndMasks(a: u64, b: u64): (r: u64)
    requires IsMask(a) && IsMask(b)
    ensures r == Mask(a != 0 && b != 0)
  {
    MaskLogic(a != 0, b != 0);
    BitAnd(a, b)
  }

  /** vorrq_u64 / _mm256_or_si256 of two masks. */
  function OrMasks(a: u64, b: u64): (r: u64)
    requires IsMask(a) && IsMask(b)
    ensures r == Mask(a != 0 || b != 0)
  {
    MaskLogic(a != 0, b != 0);
    BitOr(a, b)
  }

  /** A lane anded with a mask: kept whole under all ones, cleared under zero. */
  function KeepIf(x: u64, mask: u64): (r: u64)
    requires IsMask(mask)
    ensures r == if mask != 0 then x else 0
  {
    AndMask(x, mask != 0);
    BitAnd(x, mask)
  }
}
