/** The Collatz map on unbounded naturals and the chain-length relation that the cache
    and the engines are specified against. Whether every trajectory reaches 1 is the
    Collatz conjecture, so chain length is a relation, not a total function. */
module Collatz {
  import opened Words

  /** One Collatz step: halve an even number, map an odd one to 3n+1. */
  function Next(n: nat): nat
  {
    if n % 2 == 0 then n / 2 else 3 * n + 1
  }

  /** The trajectory of n reaches 1 for the first time after exactly k steps, and every
      value on it, n included, fits in an unsigned 64-bit word. */
  ghost predicate Chain(n: nat, k: nat)
    decreases k
  {
    n < TWO64 && if k == 0 then n == 1 else n > 1 && Chain(Next(n), k - 1)
  }

  /** n has a chain length: its trajectory reaches 1 without leaving 64-bit range. */
  ghost predicate HasChain(n: nat)
  {
    exists k: nat :: Chain(n, k)
  }

  /** Chain length is a function: a trajectory reaches 1 first at one step count only. */
  lemma {:induction false} ChainUnique(n: nat, k1: nat, k2: nat)
    requires Chain(n, k1) && Chain(n, k2)
    ensures k1 == k2
    decreases k1
  {
    if k1 > 0 && k2 > 0 {
      ChainUnique(Next(n), k1 - 1, k2 - 1);
    }
  }

  lemma {:induction false} ChainPositive(n: nat, k: nat)
    requires Chain(n, k)
    ensures 1 <= n < TWO64
  {
  }

  /** Halving an even value on a chain removes one step. */
  lemma {:induction false} ChainHalve(n: nat, k: nat)
    requires Chain(n, k) && n % 2 == 0
    ensures k >= 1 && Chain(n / 2, k - 1)
  {
  }

  /** Shifting out up to Ctz(n) zeros of a value on a chain removes as many steps. */
  lemma {:induction false} ChainShift(n: nat, k: nat, z: nat)
    requires Chain(n, k) && z <= Ctz(n)
    ensures k >= z && Chain(Shr(n, z), k - z)
    decreases z
  {
    if z > 0 {
      ChainPositive(n, k);
      ChainHalve(n, k);
      ChainShift(n / 2, k - 1, z - 1);
    }
  }

  /** An odd value above 1 on a chain goes to 3n+1 (still a 64-bit word) in one step. */
  lemma {:induction false} ChainTriple(n: nat, k: nat)
    requires Chain(n, k) && n % 2 == 1 && n > 1
    ensures k >= 1 && 3 * n + 1 < TWO64 && Chain(3 * n + 1, k - 1)
  {
  }

  /** The combined odd step (3n+1)/2 of an odd value above 1 counts as two steps. */
  lemma {:induction false} ChainOddStep(n: nat, k: nat)
    requires Chain(n, k) && n % 2 == 1 && n > 1
    ensures k >= 2 && 3 * n + 1 < TWO64 && Chain((3 * n + 1) / 2, k - 2)
  {
    ChainTriple(n, k);
    var m := 3 * n + 1;
    var q := n / 2;
    assert m == 2 * (3 * q + 2) && m % 2 == 0 && m / 2 == 3 * q + 2;
    ChainHalve(m, k - 1);
    assert Chain(m / 2, k - 2);
  }

  /** Extending a chain backwards: a value above 1 whose successor has chain length k has
      chain length k + 1. */
  lemma {:induction false} ChainBack(n: nat, k: nat)
    requires 1 < n < TWO64 && Chain(Next(n), k)
    ensures Chain(n, k + 1)
  {
  }

  /** Sums of step counters wrap modulo the counter width. */
  lemma {:induction false} AddMod(a: nat, b: nat, m: nat)
    requires m > 0
    ensures (a % m + b) % m == (a + b) % m
  {
    var r := a % m + b;
    DivModUnique(a + b, a / m + r / m, r % m, m);
  }

  lemma {:induction false} DivModUnique(x: nat, y: nat, z: nat, m: nat)
    requires m > 0 && x == y * m + z && z < m
    ensures x % m == z && x / m == y
  {
    var q, r := x / m, x % m;
    assert x == q * m + r;
    if q > y {
      MulMono(y + 1, q, m);
      assert false;
    } else if q < y {
      MulMono(q + 1, y, m);
      assert false;
    }
  }

  lemma {:induction false} MulMono(a: nat, b: nat, m: nat)
    requires a <= b
    ensures a * m <= b * m
  {
  }

  lemma {:induction false} MulSucc(t: nat, c: nat)
    ensures (t + 1) * c == t * c + c
  {
  }
}
