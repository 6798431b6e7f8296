/** Machine words as natural numbers: the widths the engine uses, wrap-around written
    out, and the bit operations the engine relies on (trailing-zero count, right shift,
    bitwise or), defined on naturals so that they can be related to Collatz arithmetic. */
module Words {

  const TWO16: nat := 0x1_0000
  const TWO32: nat := 0x1_0000_0000
  const TWO64: nat := 0x1_0000_0000_0000_0000
  /** INT64_MAX, the bound the engine's overflow test protects. */
  const INT64_MAX: nat := 0x7FFF_FFFF_FFFF_FFFF
  /** UINT64_MAX, the vector engine's internal "no overflow seen" sentinel. */
  const UINT64_MAX: nat := 0xFFFF_FFFF_FFFF_FFFF

  type u16 = x: nat | x < 0x1_0000
  type u32 = x: nat | x < 0x1_0000_0000
  type u64 = x: nat | x < 0x1_0000_0000_0000_0000

  /** Truncation to uint16_t, uint32_t and uint64_t. */
  function Wrap16(x: nat): u16 { x % TWO16 }
  function Wrap32(x: nat): u32 { x % TWO32 }
  function Wrap64(x: nat): u64 { x % TWO64 }

  lemma {:induction false} Wrap64Small(x: nat)
    requires x < TWO64
    ensures Wrap64(x) == x
  {
  }

  function Max(a: nat, b: nat): (r: nat)
    ensures r >= a && r >= b && (r == a || r == b)
  {
    if a >= b then a else b
  }

  function Min(a: nat, b: nat): (r: nat)
    ensures r <= a && r <= b && (r == a || r == b)
  {
    if a <= b then a else b
  }

  function Pow2(k: nat): (r: nat)
    ensures r >= 1
  {
    if k == 0 then 1 else 2 * Pow2(k - 1)
  }

  /** n is a power of two (1, 2, 4, ...). */
  predicate IsPow2(n: nat)
  {
    n == 1 || (n > 1 && n % 2 == 0 && IsPow2(n / 2))
  }

  /** The exponent of a power of two. */
  function Log2(n: nat): (k: nat)
    requires IsPow2(n)
    ensures Pow2(k) == n
  {
    if n == 1 then 0 else 1 + Log2(n / 2)
  }

  /** n >> z on an unsigned word. */
  function Shr(n: nat, z: nat): (r: nat)
  {
    if z == 0 then n else Shr(n / 2, z - 1)
  }

  /** fast_ctz: the number of trailing zero bits of n, and 0 for n == 0. */
  function Ctz(n: nat): (z: nat)
  {
    if n == 0 || n % 2 == 1 then 0 else 1 + Ctz(n / 2)
  }

  /** Shifting out the trailing zeros leaves the odd part: n == odd * 2^z. */
  lemma {:induction false} CtzOddPart(n: nat)
    requires n > 0
    ensures Shr(n, Ctz(n)) % 2 == 1
    ensures Shr(n, Ctz(n)) * Pow2(Ctz(n)) == n
  {
    if n % 2 == 0 {
      CtzOddPart(n / 2);
    }
  }

  lemma {:induction false} CtzOfZero()
    ensures Ctz(0) == 0
  {
  }

  /** The trailing-zero count of a positive word below 2^k is below k. */
  lemma {:induction false} CtzBelow(n: nat, k: nat)
    requires 0 < n < Pow2(k)
    ensures Ctz(n) < k
  {
    if n % 2 == 0 {
      CtzBelow(n / 2, k - 1);
    }
  }

  lemma {:induction false} ShrBounded(n: nat, z: nat)
    ensures Shr(n, z) <= n
    ensures z > 0 && n > 0 ==> Shr(n, z) < n
  {
    if z > 0 {
      ShrBounded(n / 2, z - 1);
    }
  }

  /** Bitwise or of two unsigned words. */
  function BitOr(a: nat, b: nat): (r: nat)
    decreases a + b
  {
    if a == 0 then b
    else if b == 0 then a
    else 2 * BitOr(a / 2, b / 2) + (if a % 2 == 1 || b % 2 == 1 then 1 else 0)
  }

  /** The or of several words, n0|n1|...|n7 in the eight-way loop. */
  function OrAll(s: seq<nat>): nat
  {
    if |s| == 0 then 0 else BitOr(OrAll(s[..|s| - 1]), s[|s| - 1])
  }

  /** Because the bound is a power of two, an or of two words reaches it exactly when one
      of them does. */
  lemma {:induction false} BitOrBelowPow2(a: nat, b: nat, k: nat)
    ensures BitOr(a, b) < Pow2(k) <==> a < Pow2(k) && b < Pow2(k)
    decreases k
  {
    if k == 0 {
      BitOrZero(a, b);
    } else {
      BitOrHalf(a, b);
      BitOrBelowPow2(a / 2, b / 2, k - 1);
    }
  }

  lemma BitOrZero(a: nat, b: nat)
    ensures BitOr(a, b) == 0 <==> a == 0 && b == 0
  {
  }

  lemma {:induction false} BitOrHalf(a: nat, b: nat)
    ensures BitOr(a, b) / 2 == BitOr(a / 2, b / 2)
  {
  }

  /** The loop condition `(n0|...|n7) >= CACHE_LIMIT` holds exactly when some lane is at
      least CACHE_LIMIT. */
  lemma {:induction false} OrAllBelowPow2(s: seq<nat>, k: nat)
    ensures OrAll(s) < Pow2(k) <==> forall j :: 0 <= j < |s| ==> s[j] < Pow2(k)
  {
    if |s| > 0 {
      var init := s[..|s| - 1];
      OrAllBelowPow2(init, k);
      BitOrBelowPow2(OrAll(init), s[|s| - 1], k);
      assert forall j :: 0 <= j < |s| - 1 ==> s[j] == init[j];
    }
  }
}
