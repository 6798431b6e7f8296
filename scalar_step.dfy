/** The per-seed stepping of the scalar hybrid engine (lib/collatz.cpp): step_hybrid and
    the walk it drives from a seed down into the cache. */
module ScalarStep {
  import opened Words
  import opened Collatz

  /** The largest n for which 3n+1 <= INT64_MAX: (INT64_MAX - 1) / 3. */
  const SAFE_THRESHOLD: nat := (INT64_MAX - 1) / 3

  /** The registers of one seed in flight: current value, steps so far, peak so far. */
  datatype ScalarLane = ScalarLane(n: u64, steps: u32, peak: u64)

  /** The odd part of a positive word: x shifted right by its trailing-zero count. */
  function OddPart(x: nat): nat
  {
    Shr(x, Ctz(x))
  }

  lemma {:induction false} OddPartFacts(x: nat)
    requires x > 0
    ensures OddPart(x) % 2 == 1 && OddPart(x) * Pow2(Ctz(x)) == x && OddPart(x) <= x
  {
    CtzOddPart(x);
    ShrBounded(x, Ctz(x));
  }

  /** The fast branch is safe, and exactly so: 3 * SAFE_THRESHOLD + 1 is INT64_MAX. */
  lemma {:induction false} SafeThresholdExact()
    ensures 3 * SAFE_THRESHOLD + 1 == INT64_MAX
    ensures forall n: nat :: n < SAFE_THRESHOLD ==> 3 * n + 1 < INT64_MAX
  {
  }

  /** step_hybrid, the wide-integer build. A value below the cache bound is left alone.
      Otherwise 3n+1 is formed (directly below SAFE_THRESHOLD, in 128 bits above it); if it
      exceeds INT64_MAX the seed becomes an overflow candidate and n the stop value 0, with
      steps and peak untouched; else n becomes the odd part of 3n+1, steps grows by
      1 + its trailing zeros and peak takes 3n+1 if larger. Returns the new lane and the
      new overflow candidate. */
  function StepHybrid(x: ScalarLane, seed: u64, overflow: u64, limit: nat): (r: (ScalarLane, u64))
    ensures x.n < limit ==> r == (x, overflow)
    ensures x.n >= limit && 3 * x.n + 1 > INT64_MAX ==>
      r == (ScalarLane(0, x.steps, x.peak), Min(overflow, seed))
    ensures x.n >= limit && 3 * x.n + 1 <= INT64_MAX ==>
      var z := Ctz(3 * x.n + 1);
      && r.0.n % 2 == 1 && r.0.n * Pow2(z) == 3 * x.n + 1
      && r.0.steps == Wrap32(x.steps + 1 + z)
      && r.0.peak == Max(x.peak, 3 * x.n + 1)
      && r.1 == overflow
  {
    if x.n < limit then
      (x, overflow)
    else if x.n < SAFE_THRESHOLD then
      AdvanceOdd(x, x.n * 3 + 1, overflow)
    else
      var wide: nat := x.n * 3 + 1;
      if wide > INT64_MAX then
        (ScalarLane(0, x.steps, x.peak), if seed < overflow then seed else overflow)
      else
        AdvanceOdd(x, wide, overflow)
  }

  /** The common tail of both branches: peak, shift out the zeros of next, count them. */
  function AdvanceOdd(x: ScalarLane, next: nat, overflow: u64): (r: (ScalarLane, u64))
    requires 0 < next <= INT64_MAX
    ensures r.0.n % 2 == 1 && r.0.n * Pow2(Ctz(next)) == next
    ensures r.0.steps == Wrap32(x.steps + 1 + Ctz(next)) && r.0.peak == Max(x.peak, next)
    ensures r.1 == overflow
  {
    OddPartFacts(next);
    var peak := if next > x.peak then next else x.peak;
    var zeros := Ctz(next);
    (ScalarLane(OddPart(next), Wrap32(x.steps + 1 + zeros), peak), overflow)
  }

  /** step_hybrid as written for builds without 128-bit integers: the guard inside the
      slow branch repeats the negation of the branch condition, so it never fires and 3n+1
      is formed in 64 bits, wrapping, with no overflow recorded. */
  function StepHybridNoInt128(x: ScalarLane, seed: u64, overflow: u64, limit: nat): (r: (ScalarLane, u64))
    ensures x.n >= SAFE_THRESHOLD ==> r.1 == overflow
  {
    if x.n < limit then
      (x, overflow)
    else if x.n < SAFE_THRESHOLD then
      AdvanceOdd(x, x.n * 3 + 1, overflow)
    else if x.n < SAFE_THRESHOLD then
      // the guard that should have recorded the overflow and stopped: never reached
      assert false; (x, overflow)
    else
      var next := Wrap64(x.n * 3 + 1);
      var peak := if next > x.peak then next else x.peak;
      var zeros := Ctz(next);
      ShrBounded(next, zeros);
      (ScalarLane(Shr(next, zeros), Wrap32(x.steps + 1 + zeros), peak), overflow)
  }

  /** The seed SAFE_THRESHOLD + 1 is odd and its 3n+1 exceeds INT64_MAX: the wide build
      abandons it as an overflow, the build without 128-bit integers carries on with the
      out-of-range value 3n+1 as its peak and records no overflow. */
  lemma {:induction false} NoInt128MissesOverflow()
    ensures var x := ScalarLane(SAFE_THRESHOLD + 1, 0, SAFE_THRESHOLD + 1);
      && 3 * x.n + 1 > INT64_MAX
      && StepHybrid(x, x.n, INT64_MAX, TWO16).0.n == 0
      && StepHybrid(x, x.n, INT64_MAX, TWO16).1 == x.n
      && StepHybridNoInt128(x, x.n, INT64_MAX, TWO16).0.n != 0
      && StepHybridNoInt128(x, x.n, INT64_MAX, TWO16).0.peak == 3 * x.n + 1
      && StepHybridNoInt128(x, x.n, INT64_MAX, TWO16).1 == INT64_MAX
  {
    var x := ScalarLane(SAFE_THRESHOLD + 1, 0, SAFE_THRESHOLD + 1);
    var next := 3 * x.n + 1;
    assert next < TWO64 && Wrap64(next) == next;
    assert next % 2 == 0 && (next / 2) % 2 == 1;
    assert Ctz(next) == 1;
    assert Shr(next, 1) == next / 2;
  }

  /** The hybrid walk of a value ends within k steps: it falls below the cache bound or
      meets a 3n+1 above INT64_MAX, after at most k odd steps. This is what the source's
      loops rely on to terminate. */
  ghost predicate Settles(n: nat, limit: nat, k: nat)
    decreases k
  {
    n < limit || 3 * n + 1 > INT64_MAX || (k > 0 && Settles(OddPart(3 * n + 1), limit, k - 1))
  }

  ghost predicate SettlesSome(n: nat, limit: nat)
  {
    exists k: nat :: Settles(n, limit, k)
  }

  /** How much walking a lane still has ahead of it: nothing once below the bound. */
  function Pending(x: ScalarLane, limit: nat, k: nat): nat
  {
    if x.n < limit then 0 else k + 1
  }

  /** One step moves a lane that is still walking one step closer to its end. */
  lemma {:induction false} StepSettles(x: ScalarLane, seed: u64, overflow: u64, limit: nat, k: nat)
    requires limit > 0 && Settles(x.n, limit, k)
    ensures var y := StepHybrid(x, seed, overflow, limit).0;
      && Settles(y.n, limit, if k == 0 then 0 else k - 1)
      && (x.n >= limit ==> Pending(y, limit, if k == 0 then 0 else k - 1) < Pending(x, limit, k))
      && (x.n < limit ==> y == x)
  {
  }

  /** The walk of one lane: step_hybrid repeated until the value is below the bound. */
  function HybridWalk(x: ScalarLane, limit: nat, k: nat): (r: ScalarLane)
    requires limit > 0 && Settles(x.n, limit, k)
    ensures r.n < limit
    decreases Pending(x, limit, k)
  {
    if x.n < limit then x
    else
      StepSettles(x, 0, 0, limit, k);
      HybridWalk(StepHybrid(x, 0, 0, limit).0, limit, if k == 0 then 0 else k - 1)
  }

  /** Neither the seed recorded for an overflow nor the overflow candidate affects the
      lane's registers. */
  lemma {:induction false} StepLaneIndependent(x: ScalarLane, s1: u64, o1: u64, s2: u64, o2: u64, limit: nat)
    ensures StepHybrid(x, s1, o1, limit).0 == StepHybrid(x, s2, o2, limit).0
  {
  }

  /** Where the walk ends does not depend on which termination witness is used. */
  lemma {:induction false} HybridWalkWitness(x: ScalarLane, limit: nat, k1: nat, k2: nat)
    requires limit > 0 && Settles(x.n, limit, k1) && Settles(x.n, limit, k2)
    ensures HybridWalk(x, limit, k1) == HybridWalk(x, limit, k2)
    decreases Pending(x, limit, k1)
  {
    if x.n >= limit {
      StepSettles(x, 0, 0, limit, k1);
      StepSettles(x, 0, 0, limit, k2);
      HybridWalkWitness(StepHybrid(x, 0, 0, limit).0, limit, if k1 == 0 then 0 else k1 - 1, if k2 == 0 then 0 else k2 - 1);
    }
  }

  /** Along a Collatz chain that never passes INT64_MAX the hybrid walk counts steps
      exactly: from a value with chain length K it stops at a value with chain length
      rest, having added K - rest steps (modulo 2^32, as the uint32_t counter does). */
  lemma {:induction false} HybridWalkChain(x: ScalarLane, limit: nat, k: nat, K: nat) returns (rest: nat)
    requires limit >= 2 && Settles(x.n, limit, k) && Chain(x.n, K)
    requires x.n < limit || x.n % 2 == 1
    requires HybridWalk(x, limit, k).n != 0
    ensures rest <= K && Chain(HybridWalk(x, limit, k).n, rest)
    ensures HybridWalk(x, limit, k).steps == Wrap32(x.steps + (K - rest))
    decreases Pending(x, limit, k)
  {
    if x.n < limit {
      rest := K;
    } else {
      var y := StepHybrid(x, 0, 0, limit).0;
      var k' := if k == 0 then 0 else k - 1;
      WalkUnfold(x, limit, k);
      var z := StepOnChain(x, limit, K);
      rest := HybridWalkChain(y, limit, k', K - 1 - z);
      WrapSteps(x.steps, 1 + z, K - 1 - z - rest);
    }
  }

  /** The walk from a value at or above the bound is the walk from its successor, and it
      ends at 0 if that first step overflows. */
  lemma {:induction false} WalkUnfold(x: ScalarLane, limit: nat, k: nat)
    requires limit > 0 && x.n >= limit && Settles(x.n, limit, k)
    ensures var y := StepHybrid(x, 0, 0, limit).0;
      && Settles(y.n, limit, if k == 0 then 0 else k - 1)
      && Pending(y, limit, if k == 0 then 0 else k - 1) < Pending(x, limit, k)
      && HybridWalk(x, limit, k) == HybridWalk(y, limit, if k == 0 then 0 else k - 1)
      && (3 * x.n + 1 > INT64_MAX ==> HybridWalk(x, limit, k).n == 0)
  {
    StepSettles(x, 0, 0, limit, k);
  }

  /** Adding to a uint32_t counter in two goes wraps as adding once. */
  lemma {:induction false} WrapSteps(s: nat, a: nat, b: nat)
    ensures Wrap32(Wrap32(s + a) + b) == Wrap32(s + (a + b))
  {
    AddMod(s + a, b, TWO32);
  }

  /** One step of step_hybrid from an odd value on a chain of length K that stays within
      INT64_MAX: the value moves 1 + z steps down the chain, z its trailing zeros. */
  lemma {:induction false} StepOnChain(x: ScalarLane, limit: nat, K: nat) returns (z: nat)
    requires 2 <= limit <= x.n && x.n % 2 == 1 && Chain(x.n, K) && 3 * x.n + 1 <= INT64_MAX
    ensures var y := StepHybrid(x, 0, 0, limit).0;
      && K >= 1 + z && y.n % 2 == 1 && Chain(y.n, K - 1 - z)
      && y.steps == Wrap32(x.steps + 1 + z)
  {
    var m := 3 * x.n + 1;
    z := Ctz(m);
    ChainTriple(x.n, K);
    ChainShift(m, K - 1, z);
    assert StepHybrid(x, 0, 0, limit).0 == AdvanceOdd(x, m, 0).0;
  }
}
