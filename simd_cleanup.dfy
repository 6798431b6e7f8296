/** The scalar cleanup loop of the vector engine's worker (lib/collatz_simd.cpp): the
    seeds left over after the sixteen-seed groups, walked one at a time with runs of
    zeros shifted out by CTZ and the combined odd step (3n+1) >> 1, until below
    CACHE_LIMIT or abandoned at an odd value above OVERFLOW_THRESHOLD. */
module SimdCleanup {
  import opened Words
  import opened Collatz
  import opened SimdLane
  import opened SimdStats
  import Cache

  /** The variables of one cleanup walk: n, steps (a uint32_t), peak and overflowed. */
  datatype Scan = Scan(n: u64, steps: u32, peak: u64, overflowed: bool)

  /** The value after one pass of the loop that does not break: n >> CTZ(n) for an even
      n, (n * 3 + 1) >> 1 in 64-bit arithmetic for an odd one. */
  function CleanupNext(n: u64): u64
  {
    ShrBounded(n, Ctz(n));
    if n % 2 == 0 then Shr(n, Ctz(n)) else Wrap64(3 * n + 1) / 2
  }

  /** The cleanup walk of n stops within k passes: it falls below CACHE_LIMIT or breaks at
      an odd value above OVERFLOW_THRESHOLD. */
  ghost predicate CleanupSettles(n: u64, L: u64, k: nat)
    decreases k
  {
    n < L || (n % 2 == 1 && n > OVERFLOW_THRESHOLD) || (k > 0 && CleanupSettles(CleanupNext(n), L, k - 1))
  }

  ghost predicate CleanupSettlesSome(n: u64, L: u64)
  {
    exists k: nat :: CleanupSettles(n, L, k)
  }

  /** One pass of the loop body at n >= CACHE_LIMIT: the peak is raised to n; an even n
      loses its trailing zeros, counted one step each; an odd n above the threshold sets
      overflowed (the loop then breaks); any other odd n takes two steps. */
  function CleanupStep(x: Scan): Scan
  {
    var p := Max(x.peak, x.n);
    if x.n % 2 == 0 then Scan(CleanupNext(x.n), Wrap32(x.steps + Ctz(x.n)), p, false)
    else if x.n > OVERFLOW_THRESHOLD then Scan(x.n, x.steps, p, true)
    else Scan(CleanupNext(x.n), Wrap32(x.steps + 2), p, false)
  }

  /** Where the cleanup walk ends: below CACHE_LIMIT, or abandoned. */
  function CleanupWalk(x: Scan, L: u64, k: nat): (r: Scan)
    requires !x.overflowed && CleanupSettles(x.n, L, k)
    ensures r.overflowed || r.n < L
    decreases k
  {
    if x.n < L then x
    else
      var y := CleanupStep(x);
      if y.overflowed then y else CleanupWalk(y, L, k - 1)
  }

  /** The end of the walk does not depend on the termination witness. */
  lemma {:induction false} CleanupWalkWitness(x: Scan, L: u64, k1: nat, k2: nat)
    requires !x.overflowed && CleanupSettles(x.n, L, k1) && CleanupSettles(x.n, L, k2)
    ensures CleanupWalk(x, L, k1) == CleanupWalk(x, L, k2)
    decreases k1
  {
    if x.n >= L && !CleanupStep(x).overflowed {
      CleanupWalkWitness(CleanupStep(x), L, k1 - 1, k2 - 1);
    }
  }

  /** What a finished walk contributes: an abandoned seed lowers the first-overflow record
      and nothing else; any other seed adds the cache entry of where it stopped and takes
      part in the longest and peak records. */
  function ScanRecord(seed: u64, r: Scan, cache: seq<u16>): SimdSeed
    requires r.overflowed || r.n < |cache|
  {
    if r.overflowed then SimdSeed(seed, r.steps, r.peak, true, false)
    else SimdSeed(seed, Wrap32(r.steps + cache[r.n]), r.peak, false, true)
  }

  /** The walk a cleanup seed starts: n = seed, steps = 0, peak = seed. */
  function StartScan(seed: u64): Scan
  {
    Scan(seed, 0, seed, false)
  }

  /** The record of a cleanup seed. */
  ghost function CleanupRecord(seed: u64, L: u64, cache: seq<u16>): SimdSeed
    requires |cache| == L && CleanupSettlesSome(seed, L)
  {
    var k: nat :| CleanupSettles(seed, L, k);
    ScanRecord(seed, CleanupWalk(StartScan(seed), L, k), cache)
  }

  lemma {:induction false} CleanupRecordOf(seed: u64, L: u64, cache: seq<u16>, k: nat)
    requires |cache| == L && CleanupSettles(seed, L, k)
    ensures CleanupRecord(seed, L, cache) == ScanRecord(seed, CleanupWalk(StartScan(seed), L, k), cache)
  {
    var k': nat :| CleanupSettles(seed, L, k') &&
      CleanupRecord(seed, L, cache) == ScanRecord(seed, CleanupWalk(StartScan(seed), L, k'), cache);
    CleanupWalkWitness(StartScan(seed), L, k, k');
  }

  /** One seed of the cleanup loop: the walk, then the cache entry if it was not
      abandoned. */
  method CleanupSeed(seed: u64, L: u64, cache: seq<u16>, ghost k: nat) returns (r: SimdSeed)
    requires |cache| == L && CleanupSettles(seed, L, k)
    ensures r == CleanupRecord(seed, L, cache)
  {
    CleanupRecordOf(seed, L, cache, k);
    var n: u64 := seed;
    var peak: u64 := n;
    var steps: u32 := 0;
    var overflowed := false;
    ghost var j := k;
    while n >= L
      invariant !overflowed && CleanupSettles(n, L, j)
      invariant CleanupWalk(Scan(n, steps, peak, false), L, j) == CleanupWalk(StartScan(seed), L, k)
      decreases j
    {
      if n > peak {
        peak := n;
      }
      if n % 2 == 0 {
        var z := Ctz(n);
        n := CleanupNext(n);
        steps := Wrap32(steps + z);
      } else {
        if n > OVERFLOW_THRESHOLD {
          overflowed := true;
          break;
        }
        n := CleanupNext(n);
        steps := Wrap32(steps + 2);
      }
      j := j - 1;
    }
    if !overflowed {
      r := SimdSeed(seed, Wrap32(steps + cache[n]), peak, false, true);
    } else {
      r := SimdSeed(seed, steps, peak, true, false);
    }
  }

  /** On a seed whose trajectory stays in 64-bit range and is not abandoned, the cleanup
      walk follows the Collatz chain: CTZ shifts and combined odd steps are counted as the
      Collatz steps they stand for. */
  lemma {:induction false} CleanupChain(x: Scan, L: u64, k: nat, K: nat) returns (rest: nat)
    requires L >= 2 && !x.overflowed && CleanupSettles(x.n, L, k)
    requires Chain(x.n, K) && x.steps + K < TWO32
    requires !CleanupWalk(x, L, k).overflowed
    ensures rest <= K && Chain(CleanupWalk(x, L, k).n, rest)
    ensures CleanupWalk(x, L, k).steps == x.steps + (K - rest)
    decreases k
  {
    if x.n < L {
      return K;
    }
    var y := CleanupStep(x);
    if x.n % 2 == 0 {
      var z := Ctz(x.n);
      ChainShift(x.n, K, z);
      EvenScanStep(x, K);
      rest := CleanupChain(y, L, k - 1, K - z);
    } else {
      assert !y.overflowed;
      ChainOddStep(x.n, K);
      OddScanStep(x, K);
      rest := CleanupChain(y, L, k - 1, K - 2);
    }
  }

  lemma {:induction false} EvenScanStep(x: Scan, K: nat)
    requires x.n % 2 == 0 && x.n > 0 && Ctz(x.n) <= K && x.steps + K < TWO32
    ensures CleanupStep(x).n == Shr(x.n, Ctz(x.n)) && CleanupStep(x).steps == x.steps + Ctz(x.n)
    ensures !CleanupStep(x).overflowed
  {
  }

  lemma {:induction false} OddScanStep(x: Scan, K: nat)
    requires x.n % 2 == 1 && x.n <= OVERFLOW_THRESHOLD && 2 <= K && x.steps + K < TWO32
    ensures CleanupStep(x).n == (3 * x.n + 1) / 2 && CleanupStep(x).steps == x.steps + 2
    ensures !CleanupStep(x).overflowed
  {
  }

  /** A cleanup seed with chain length K below 2^16 that is not abandoned is recorded with
      length exactly K. */
  lemma {:induction false} CleanupLength(seed: u64, L: u64, cache: seq<u16>, k: nat, K: nat)
    requires 2 <= L && |cache| == L && Cache.CacheCorrect(cache)
    requires CleanupSettles(seed, L, k) && Chain(seed, K) && K < TWO16
    requires !CleanupWalk(StartScan(seed), L, k).overflowed
    ensures ScanRecord(seed, CleanupWalk(StartScan(seed), L, k), cache).len == K
  {
    var rest := CleanupChain(StartScan(seed), L, k, K);
    var r := CleanupWalk(StartScan(seed), L, k);
    Cache.CacheEntry(cache, r.n, rest);
  }
}
