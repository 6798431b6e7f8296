/** The chain-length cache: a dense table of 16-bit step counts for every index below
    CACHE_LIMIT, built either phase by phase (the scalar engine, lib/collatz.cpp) or
    index by index (the vector engine, lib/collatz_simd.cpp). */
module Cache {
  import opened Words
  import opened Collatz

  /** Entry v at index j holds j's chain length, truncated to 16 bits as a uint16_t is. */
  ghost predicate EntryOk(v: u16, j: nat)
  {
    forall k: nat :: Chain(j, k) ==> v == k % TWO16
  }

  /** A finished cache: entry 0 is the zero the engine reads for an abandoned seed, entry
      1 is 0, and every other entry is its index's chain length. */
  ghost predicate CacheCorrect(c: seq<u16>)
  {
    && |c| >= 2
    && c[0] == 0
    && c[1] == 0
    && forall j :: 1 <= j < |c| ==> EntryOk(c[j], j)
  }

  /** The indices the builders fill all have a chain length; otherwise the source's walks
      would not end. */
  ghost predicate WalksEnd(limit: nat)
  {
    forall j :: 2 <= j < limit ==> HasChain(j)
  }

  /** The walk of one index in build_cache_parallel: runs of zeros are shifted out in one
      move, an odd value takes the combined step (3n+1)>>1 counted as two steps, and the
      walk stops at the first value below phaseStart, which is the only entry it reads. */
  method WalkBelowPhase(i: u64, phaseStart: nat, ghost k: nat) returns (steps: u16, n: u64, ghost rest: nat)
    requires phaseStart >= 2 && Chain(i, k)
    ensures n < phaseStart
    ensures Chain(n, rest) && rest <= k
    ensures steps == (k - rest) % TWO16
  {
    n, steps, rest := i, 0, k;
    while n >= phaseStart
      invariant Chain(n, rest) && rest <= k
      invariant steps == (k - rest) % TWO16
      decreases rest
    {
      ChainPositive(n, rest);
      if n % 2 == 0 {
        var zeros := Ctz(n);
        ChainShift(n, rest, zeros);
        ShrBounded(n, zeros);
        AddMod(k - rest, zeros, TWO16);
        n := Shr(n, zeros);
        steps := Wrap16(steps + zeros);
        rest := rest - zeros;
      } else {
        ChainOddStep(n, rest);
        AddMod(k - rest, 2, TWO16);
        Wrap64Small(n * 3 + 1);
        n := Wrap64(n * 3 + 1) / 2;
        steps := Wrap16(steps + 2);
        rest := rest - 2;
      }
    }
  }

  /** One phase thread of build_cache_parallel: fills [s, e) reading only entries below
      phaseStart, which earlier phases have completed. */
  method FillRange(cache: array<u16>, s: nat, e: nat, phaseStart: nat)
    requires 2 <= phaseStart <= s <= e <= cache.Length < TWO64
    requires forall j :: s <= j < e ==> HasChain(j)
    requires forall j :: 1 <= j < phaseStart ==> EntryOk(cache[j], j)
    modifies cache
    ensures forall j :: s <= j < e ==> EntryOk(cache[j], j)
    ensures forall j :: 0 <= j < cache.Length && !(s <= j < e) ==> cache[j] == old(cache[j])
  {
    var i := s;
    while i < e
      invariant s <= i <= e
      invariant forall j :: s <= j < i ==> EntryOk(cache[j], j)
      invariant forall j :: 0 <= j < cache.Length && !(s <= j < i) ==> cache[j] == old(cache[j])
    {
      FillAt(cache, i, phaseStart);
      i := i + 1;
    }
  }

  /** One index of a phase thread: walk below phaseStart, add the entry found there. */
  method FillAt(cache: array<u16>, i: nat, phaseStart: nat)
    requires 2 <= phaseStart <= i < cache.Length < TWO64 && HasChain(i)
    requires forall j :: 1 <= j < phaseStart ==> EntryOk(cache[j], j)
    modifies cache
    ensures EntryOk(cache[i], i)
    ensures forall j :: 0 <= j < cache.Length && j != i ==> cache[j] == old(cache[j])
  {
    ghost var k: nat :| Chain(i, k);
    var steps, n, rest := WalkBelowPhase(i, phaseStart, k);
    ChainPositive(n, rest);
    EntryFrom(i, k, n, rest, steps, cache[n]);
    cache[i] := Wrap16(steps as nat + cache[n] as nat);
  }

  /** The threads of one phase cover it: ceil(len / threads) * threads >= len, and one
      chunk fewer would not. */
  lemma {:induction false} ChunksCover(len: nat, threads: nat, chunk: nat)
    requires threads > 0 && chunk == (len + threads - 1) / threads
    ensures len <= threads * chunk < len + threads
  {
    var r := (len + threads - 1) % threads;
    assert len + threads - 1 == chunk * threads + r;
  }

  /** t * c as repeated addition, so that loops over chunks stay linear. */
  function Times(t: nat, c: nat): nat
  {
    if t == 0 then 0 else Times(t - 1, c) + c
  }

  lemma {:induction false} TimesIsMul(t: nat, c: nat)
    ensures Times(t, c) == t * c
  {
    if t > 0 {
      TimesIsMul(t - 1, c);
    }
  }

  /** One phase of build_cache_parallel: [phaseStart, phaseEnd) split into `threads`
      chunks of ceil(len / threads) indices; the threads, joined before the next phase
      starts, run here one after the other. */
  method FillPhase(cache: array<u16>, phaseStart: nat, phaseEnd: nat, threads: nat)
    requires 2 <= phaseStart < phaseEnd <= cache.Length < TWO64 && threads > 0
    requires forall j :: phaseStart <= j < phaseEnd ==> HasChain(j)
    requires forall j :: 1 <= j < phaseStart ==> EntryOk(cache[j], j)
    modifies cache
    ensures forall j :: 1 <= j < phaseEnd ==> EntryOk(cache[j], j)
    ensures forall j :: 0 <= j < cache.Length && !(phaseStart <= j < phaseEnd) ==> cache[j] == old(cache[j])
  {
    var chunk := (phaseEnd - phaseStart + threads - 1) / threads;
    ChunksCover(phaseEnd - phaseStart, threads, chunk);
    TimesIsMul(threads, chunk);
    var t := 0;
    while t < threads
      invariant 0 <= t <= threads
      invariant forall j :: 1 <= j < Min(phaseStart + Times(t, chunk), phaseEnd) ==> EntryOk(cache[j], j)
      invariant forall j :: 0 <= j < cache.Length && !(phaseStart <= j < phaseEnd) ==> cache[j] == old(cache[j])
    {
      TimesIsMul(t, chunk);
      var s := phaseStart + t * chunk;
      if s >= phaseEnd {
        break;
      }
      FillChunk(cache, phaseStart, phaseEnd, s, chunk);
      t := t + 1;
    }
  }

  /** The thread whose chunk starts at s: [s, min(s + chunk, phaseEnd)). */
  method FillChunk(cache: array<u16>, phaseStart: nat, phaseEnd: nat, s: nat, chunk: nat)
    requires 2 <= phaseStart <= s < phaseEnd <= cache.Length < TWO64
    requires forall j :: phaseStart <= j < phaseEnd ==> HasChain(j)
    requires forall j :: 1 <= j < s ==> EntryOk(cache[j], j)
    modifies cache
    ensures forall j :: 1 <= j < Min(s + chunk, phaseEnd) ==> EntryOk(cache[j], j)
    ensures forall j :: 0 <= j < cache.Length && !(s <= j < Min(s + chunk, phaseEnd)) ==> cache[j] == old(cache[j])
  {
    var e := Min(s + chunk, phaseEnd);
    FillRange(cache, s, e, phaseStart);
  }

  datatype Option<T> = None | Some(value: T)

  /** The chunk of one phase as line 115 computes it, (len + threads - 1) / threads, where
      threads is hardware_concurrency() taken unchecked. That call may report 0, and an
      unsigned division by 0 is undefined in C++ (it traps on x86): None. */
  function PhaseChunk(len: nat, threads: nat): (r: Option<nat>)
    ensures r.None? <==> threads == 0
    ensures r.Some? ==> len <= threads * r.value < len + threads
  {
    if threads == 0 then None
    else
      var chunk := (len + threads - 1) / threads;
      ChunksCover(len, threads, chunk);
      Some(chunk)
  }

  /** When hardware_concurrency() reports 0, the very first phase of any cache of more
      than two entries divides by zero. */
  lemma {:induction false} ZeroHardwareThreads(limit: nat, phaseSize: nat)
    requires 2 < limit && phaseSize > 0
    ensures PhaseChunk(Min(2 + phaseSize, limit) - 2, 0) == None
  {
  }

  /** The thread count build_cache_parallel evidently intends: the hardware concurrency,
      with a report of 0 read as 4, the fallback collatz_compute_simd applies to the same
      call. Every phase then divides by a positive count. */
  function BuilderThreads(hw: nat): (t: nat)
    ensures t >= 1 && (hw > 0 ==> t == hw) && (hw == 0 ==> t == 4)
    ensures forall len: nat :: PhaseChunk(len, t).Some?
  {
    if hw == 0 then 4 else hw
  }

  /** build_cache_parallel with its thread count guarded: whatever hardware_concurrency()
      reports, the table is built and correct, so (by CachesAgree) it is the table
      build_cache builds. */
  method BuildCacheGuarded(limit: nat, phaseSize: nat, hw: nat) returns (cache: array<u16>)
    requires 2 <= limit < TWO64 && phaseSize > 0
    requires WalksEnd(limit)
    ensures fresh(cache) && cache.Length == limit
    ensures CacheCorrect(cache[..])
  {
    cache := BuildCacheParallel(limit, phaseSize, BuilderThreads(hw));
  }

  /** build_cache_parallel: phases of phaseSize indices from 2 up to limit; every walk
      stops below its phase's start, so it reads only entries of earlier phases. */
  method BuildCacheParallel(limit: nat, phaseSize: nat, threads: nat) returns (cache: array<u16>)
    requires 2 <= limit < TWO64 && phaseSize > 0 && threads > 0
    requires WalksEnd(limit)
    ensures fresh(cache) && cache.Length == limit
    ensures CacheCorrect(cache[..])
  {
    cache := new u16[limit](_ => 0);
    cache[1] := 0;
    assert Chain(1, 0);
    forall k: nat | Chain(1, k) ensures cache[1] == k % TWO16 {
      ChainUnique(1, 0, k);
    }
    var phaseStart := 2;
    while phaseStart < limit
      invariant 2 <= phaseStart
      invariant cache[0] == 0 && cache[1] == 0
      invariant forall j :: 1 <= j < phaseStart && j < limit ==> EntryOk(cache[j], j)
    {
      var phaseEnd := Min(phaseStart + phaseSize, limit);
      FillPhase(cache, phaseStart, phaseEnd, threads);
      phaseStart := phaseStart + phaseSize;
    }
  }

  /** The walk of one index in build_cache (vector engine): single halvings, the combined
      odd step counted as two, stopping at the first value below i itself. */
  method WalkBelowSelf(i: u64, ghost k: nat) returns (steps: u16, n: u64, ghost rest: nat)
    requires i >= 2 && Chain(i, k)
    ensures n < i
    ensures Chain(n, rest) && rest <= k
    ensures steps == (k - rest) % TWO16
  {
    n, steps, rest := i, 0, k;
    while n >= i
      invariant Chain(n, rest) && rest <= k
      invariant steps == (k - rest) % TWO16
      decreases rest
    {
      ChainPositive(n, rest);
      if n % 2 == 0 {
        ChainHalve(n, rest);
        AddMod(k - rest, 1, TWO16);
        n := n / 2;
        steps := Wrap16(steps + 1);
        rest := rest - 1;
      } else {
        ChainOddStep(n, rest);
        AddMod(k - rest, 2, TWO16);
        Wrap64Small(n * 3 + 1);
        n := Wrap64(n * 3 + 1) / 2;
        steps := Wrap16(steps + 2);
        rest := rest - 2;
      }
    }
  }

  /** build_cache: fills indices 2, 3, ... in order; index i reads only an entry below i. */
  method BuildCacheSequential(limit: nat) returns (cache: array<u16>)
    requires 2 <= limit < TWO64
    requires WalksEnd(limit)
    ensures fresh(cache) && cache.Length == limit
    ensures CacheCorrect(cache[..])
  {
    cache := new u16[limit](_ => 0);
    cache[1] := 0;
    assert Chain(1, 0);
    forall k: nat | Chain(1, k) ensures cache[1] == k % TWO16 {
      ChainUnique(1, 0, k);
    }
    var i := 2;
    while i < limit
      invariant 2 <= i <= limit
      invariant cache[0] == 0 && cache[1] == 0
      invariant forall j :: 1 <= j < i ==> EntryOk(cache[j], j)
    {
      FillOne(cache, i);
      i := i + 1;
    }
  }

  /** One index of build_cache: walk below i, add the entry found there. */
  method FillOne(cache: array<u16>, i: nat)
    requires 2 <= i < cache.Length < TWO64 && HasChain(i)
    requires forall j :: 1 <= j < i ==> EntryOk(cache[j], j)
    modifies cache
    ensures EntryOk(cache[i], i)
    ensures forall j :: 0 <= j < cache.Length && j != i ==> cache[j] == old(cache[j])
  {
    ghost var k: nat :| Chain(i, k);
    var steps, n, rest := WalkBelowSelf(i, k);
    ChainPositive(n, rest);
    EntryFrom(i, k, n, rest, steps, cache[n]);
    cache[i] := Wrap16(steps as nat + cache[n] as nat);
  }

  /** An entry is the steps down to a smaller index plus that index's chain length,
      modulo 2^16. */
  lemma {:induction false} EntryFrom(i: nat, k: nat, n: nat, rest: nat, steps: nat, c: nat)
    requires Chain(i, k) && Chain(n, rest) && rest <= k
    requires steps == (k - rest) % TWO16 && c == rest % TWO16
    ensures EntryOk(Wrap16(steps + c), i)
  {
    AddMods(k - rest, rest, TWO16);
    assert Wrap16(steps + c) == k % TWO16;
    forall k': nat | Chain(i, k') ensures Wrap16(steps + c) == k' % TWO16 {
      ChainUnique(i, k, k');
    }
  }

  lemma {:induction false} AddMods(a: nat, b: nat, m: nat)
    requires m > 0
    ensures (a % m + b % m) % m == (a + b) % m
  {
    AddMod(b, a % m, m);
    AddMod(a, b, m);
  }

  /** The two builders produce the same table: a correct cache is determined entry by
      entry when every index has a chain length. */
  lemma {:induction false} CachesAgree(c1: seq<u16>, c2: seq<u16>)
    requires CacheCorrect(c1) && CacheCorrect(c2) && |c1| == |c2|
    requires WalksEnd(|c1|)
    ensures c1 == c2
  {
    forall j | 0 <= j < |c1| ensures c1[j] == c2[j] {
      if j >= 2 {
        assert HasChain(j);
        var k: nat :| Chain(j, k);
        assert EntryOk(c1[j], j) && EntryOk(c2[j], j);
      }
    }
  }

  /** A correct cache entry is the chain length of its index, modulo 2^16. */
  lemma {:induction false} CacheEntry(c: seq<u16>, n: nat, k: nat)
    requires CacheCorrect(c) && n < |c| && Chain(n, k)
    ensures c[n] == k % TWO16
  {
    ChainPositive(n, k);
    assert EntryOk(c[n], n);
  }
}
