/** The global records and the driver of the vector engine (lib/collatz_simd.cpp): the
    atomics every worker merges into, and collatz_compute_simd, which resets them, builds
    the cache, splits [1, limit) among the workers and assembles the result. */
module SimdCompute {
  import opened Words
  import opened Collatz
  import opened Cache
  import opened ScalarStats
  import opened ScalarWorker
  import ScalarCompute
  import opened SimdLane
  import opened SimdStats
  import opened SimdWorker

  /** The values collatz_compute_simd stores into the globals before a run: no overflow
      (UINT64_MAX), peak 0, longest length 0 with seed 1. */
  function ResetLocals(): (g: Locals)
    ensures g.firstOverflow == UINT64_MAX && g.longest.len == 0
  {
    Locals(0, Longest(0, 1), UINT64_MAX)
  }

  /** What the three atomic updates at the end of worker_simd do to the globals: the peak
      by atomic max, the first overflow by atomic min, and the longest record replaced
      only by a strictly longer one (the seed is stored after a successful exchange). */
  function Absorb(g: Locals, loc: Locals): Locals
  {
    Locals(Max(g.maxPeak, loc.maxPeak),
           if loc.longest.len > g.longest.len then loc.longest else g.longest,
           Min(g.firstOverflow, loc.firstOverflow))
  }

  /** Merging a worker's locals is recording its seeds on top of the globals, as long as
      every counted length fits the 32-bit record: max, min and strict-longest lose
      nothing that recording seed by seed would keep. */
  lemma {:induction false} AbsorbWorker(g: Locals, rs: seq<SimdSeed>)
    requires LensFit(rs)
    ensures Absorb(g, Fold(InitLocals(), rs)) == Fold(g, rs)
  {
    FoldPeakFrom(g.maxPeak, rs);
    FoldLongestFrom(g.longest, rs);
    FoldOverflowFrom(g.firstOverflow, rs);
  }

  /** The global atomics g_max_peak, g_longest_seed, g_longest_len and g_first_overflow.
      The compare-and-swap loops are modelled by their effect when one worker merges at a
      time. */
  class SimdGlobals {
    var maxPeak: u64
    var longestSeed: u64
    var longestLen: u32
    var firstOverflow: u64

    function Current(): Locals
      reads this
    {
      Locals(maxPeak, Longest(longestLen, longestSeed), firstOverflow)
    }

    /** The static initial values: peak 0, seed 0, length 0, no overflow. */
    constructor ()
      ensures Current() == Locals(0, Longest(0, 0), UINT64_MAX)
    {
      maxPeak, longestSeed, longestLen, firstOverflow := 0, 0, 0, UINT64_MAX;
    }

    /** The reset at the top of collatz_compute_simd. */
    method Reset()
      modifies this
      ensures Current() == ResetLocals()
    {
      firstOverflow := UINT64_MAX;
      maxPeak := 0;
      longestSeed := 1;
      longestLen := 0;
    }

    /** atomic_update_max_peak: raise the peak to val if it is greater. */
    method UpdateMaxPeak(val: u64)
      modifies this`maxPeak
      ensures maxPeak == Max(old(maxPeak), val)
    {
      var prev := maxPeak;
      if prev < val {
        maxPeak := val;
      }
    }

    /** atomic_update_longest: a strictly longer len replaces the length, then the seed. */
    method UpdateLongest(len: u32, seed: u64)
      modifies this`longestLen, this`longestSeed
      ensures Longest(longestLen, longestSeed)
           == if len > old(longestLen) then Longest(len, seed) else old(Longest(longestLen, longestSeed))
    {
      var prev := longestLen;
      if prev < len {
        longestLen := len;
        longestSeed := seed;
      }
    }

    /** atomic_update_overflow: lower the first overflow to seed if it is smaller. */
    method UpdateOverflow(seed: u64)
      modifies this`firstOverflow
      ensures firstOverflow == Min(old(firstOverflow), seed)
    {
      var prev := firstOverflow;
      if prev > seed {
        firstOverflow := seed;
      }
    }

    /** The merge at the end of worker_simd. */
    method Merge(loc: Locals)
      modifies this
      ensures Current() == Absorb(old(Current()), loc)
    {
      UpdateMaxPeak(loc.maxPeak);
      UpdateLongest(loc.longest.len, loc.longest.seed);
      UpdateOverflow(loc.firstOverflow);
    }
  }

  // ---------------------------------------------------------------- partitioning

  /** The thread count: countThread when positive, else the hardware concurrency, and 4
      when that is 0. */
  function NumThreads(countThread: int, hw: nat): (nt: nat)
    ensures nt >= 1
    ensures countThread > 0 ==> nt == countThread
    ensures countThread <= 0 ==> nt == (if hw == 0 then 4 else hw)
  {
    var n := if countThread > 0 then countThread else hw;
    if n == 0 then 4 else n
  }

  /** The share of each thread: chunk = limit / nt. */
  function Chunk(limit: nat, nt: nat): (chunk: nat)
    requires nt >= 1
    ensures chunk * nt <= limit && (nt >= 2 ==> 2 * chunk <= limit)
  {
    var chunk := limit / nt;
    MulMono(Min(2, nt), nt, chunk);
    chunk
  }

  /** Thread t of nt works on [ThreadStart, ThreadEnd): s = (t == 0) ? 1 : t * chunk and
      e = (t == nt - 1) ? limit : s + chunk. */
  function ThreadStart(chunk: nat, t: nat): nat
  {
    if t == 0 then 1 else t * chunk
  }

  function ThreadEnd(limit: nat, nt: nat, chunk: nat, t: nat): nat
  {
    if t == nt - 1 then limit else ThreadStart(chunk, t) + chunk
  }

  /** The odd seeds of the first t threads, one range after the other. */
  function ThreadSeeds(limit: nat, nt: nat, chunk: nat, t: nat): seq<nat>
  {
    if t == 0 then [] else ThreadSeeds(limit, nt, chunk, t - 1) + Odds(ThreadStart(chunk, t - 1), ThreadEnd(limit, nt, chunk, t - 1))
  }

  /** No thread's range reaches past limit, except an empty first range [1, 1) when
      limit is 0. */
  lemma {:induction false} ThreadRange(limit: nat, nt: nat, chunk: nat, t: nat)
    requires 1 <= nt && t < nt && chunk * nt <= limit && (nt >= 2 ==> 2 * chunk <= limit)
    ensures var s, e := ThreadStart(chunk, t), ThreadEnd(limit, nt, chunk, t);
      s <= Max(limit, 1) && e <= Max(limit, 1) && (s < e ==> e <= limit)
  {
    if t > 0 {
      MulMono(t + 1, nt, chunk);
      MulSucc(t, chunk);
    }
  }

  /** The odd seeds of [a, b) inside [1, limit) are covered by the walk requirement on
      [1, limit). */
  lemma {:induction false} WalksWithin(a: nat, b: nat, limit: nat, L: u64)
    requires 1 <= a <= b <= limit && SeedsWalkEnd(1, limit, L)
    ensures SeedsWalkEnd(a, b, L)
  {
    OddsSplit(1, a, limit);
    OddsSplit(a, b, limit);
    AllWalkEndSplit(Odds(1, a), Odds(a, limit), L);
    AllWalkEndSplit(Odds(a, b), Odds(b, limit), L);
  }

  lemma {:induction false} ThreadWalks(limit: nat, nt: nat, chunk: nat, t: nat, L: u64)
    requires 1 <= nt && t < nt && chunk * nt <= limit && (nt >= 2 ==> 2 * chunk <= limit)
    requires SeedsWalkEnd(1, limit, L)
    ensures ThreadStart(chunk, t) <= Max(limit, 1) && ThreadEnd(limit, nt, chunk, t) <= Max(limit, 1)
    ensures SeedsWalkEnd(ThreadStart(chunk, t), ThreadEnd(limit, nt, chunk, t), L)
  {
    ThreadRange(limit, nt, chunk, t);
    var s, e := ThreadStart(chunk, t), ThreadEnd(limit, nt, chunk, t);
    if s >= e {
      assert Odds(s, e) == [];
    } else if s == 0 {
      EvenStart(0, e);
      WalksWithin(1, e, limit, L);
    } else {
      WalksWithin(s, e, limit, L);
    }
  }

  /** The thread ranges cover the odd seeds of [1, limit) in increasing order, with one
      exception: when there are at least two threads and chunk = limit / nt is odd, the
      first thread ends at chunk + 1 and the second starts at chunk, so the seed chunk is
      walked by both. */
  lemma {:induction false} PartitionSeeds(limit: nat, nt: nat)
    requires nt >= 1
    ensures var chunk := Chunk(limit, nt);
      ThreadSeeds(limit, nt, chunk, nt)
        == if nt >= 2 && chunk % 2 == 1 then Odds(1, chunk + 1) + Odds(chunk, limit) else Odds(1, limit)
  {
    var chunk := Chunk(limit, nt);
    if nt == 1 {
      assert ThreadSeeds(limit, 1, chunk, 1) == ThreadSeeds(limit, 1, chunk, 0) + Odds(1, limit);
    } else if chunk == 0 {
      LastThreadAlone(limit, nt);
    } else {
      SpreadThreads(limit, nt, chunk);
      if chunk % 2 == 0 {
        EvenChunkJoin(chunk, limit);
      }
    }
  }

  /** With chunk 0 the last thread, from 0 to limit, holds every seed. */
  lemma {:induction false} LastThreadAlone(limit: nat, nt: nat)
    requires nt >= 2
    ensures ThreadSeeds(limit, nt, 0, nt) == Odds(1, limit)
  {
    EmptyThreads(limit, nt, nt - 1);
    if limit > 0 {
      EvenStart(0, limit);
    }
  }

  /** With chunk at least 1 the ranges run [1, chunk + 1), [chunk, 2 chunk), ...,
      [(nt - 1) chunk, limit). */
  lemma {:induction false} SpreadThreads(limit: nat, nt: nat, chunk: nat)
    requires nt >= 2 && chunk >= 1 && chunk * nt <= limit
    ensures ThreadSeeds(limit, nt, chunk, nt) == Odds(1, chunk + 1) + Odds(chunk, limit)
  {
    MiddleThreads(limit, nt, chunk, nt - 1);
    MulMono(nt - 1, nt, chunk);
    MulMono(1, nt - 1, chunk);
    OddsSplit(chunk, (nt - 1) * chunk, limit);
  }

  lemma {:induction false} EvenChunkJoin(chunk: nat, limit: nat)
    requires chunk % 2 == 0 && 1 <= chunk < limit
    ensures Odds(1, chunk + 1) + Odds(chunk, limit) == Odds(1, limit)
  {
    EvenStart(chunk, limit);
    OddsSplit(1, chunk + 1, limit);
  }

  /** An even start contributes no seed. */
  lemma {:induction false} EvenStart(a: nat, b: nat)
    requires a % 2 == 0 && a < b
    ensures Odds(a, b) == Odds(a + 1, b)
  {
    assert Odds(a, b) == [] + Odds(a + 1, b);
  }

  /** With chunk 0 every thread but the last has an empty range. */
  lemma {:induction false} EmptyThreads(limit: nat, nt: nat, t: nat)
    requires nt >= 2 && t <= nt - 1
    ensures ThreadSeeds(limit, nt, 0, t) == []
  {
    if t > 0 {
      EmptyThreads(limit, nt, t - 1);
      assert Odds(ThreadStart(0, t - 1), ThreadEnd(limit, nt, 0, t - 1)) == [];
    }
  }

  /** The first t threads, short of the last: [1, chunk + 1), then [chunk, 2 chunk) up to
      [(t - 1) chunk, t chunk). */
  lemma {:induction false} MiddleThreads(limit: nat, nt: nat, chunk: nat, t: nat)
    requires nt >= 2 && chunk >= 1 && 1 <= t <= nt - 1
    ensures ThreadSeeds(limit, nt, chunk, t) == Odds(1, chunk + 1) + Odds(chunk, t * chunk)
  {
    if t == 1 {
      assert ThreadSeeds(limit, nt, chunk, 1) == [] + Odds(1, chunk + 1);
      assert Odds(chunk, 1 * chunk) == [];
    } else {
      MiddleThreads(limit, nt, chunk, t - 1);
      var m := (t - 1) * chunk;
      MulMono(1, t - 1, chunk);
      MulSucc(t - 1, chunk);
      assert ThreadStart(chunk, t - 1) == m && ThreadEnd(limit, nt, chunk, t - 1) == t * chunk == m + chunk;
      assert ThreadSeeds(limit, nt, chunk, t)
        == (Odds(1, chunk + 1) + Odds(chunk, m)) + Odds(m, m + chunk);
      OddsSplit(chunk, m, m + chunk);
    }
  }

  /** limit 6 on two threads: chunk 3, ranges [1, 4) and [3, 6), seeds 1, 3, 3, 5. */
  lemma {:induction false} DuplicateSeedExample()
    ensures ThreadSeeds(6, 2, Chunk(6, 2), 2) == [1, 3, 3, 5]
  {
    PartitionSeeds(6, 2);
    OddsStep(1, 4);
    OddsStep(3, 6);
    assert Odds(3, 4) == [3];
    assert Odds(5, 6) == [5];
  }

  // ---------------------------------------------------------------- collatz_compute_simd

  /** The walk requirements of a run: a cache limit the cache can be built for, and every
      odd seed of [1, limit) walks to an end on both paths. */
  ghost predicate RunOk(limit: nat, L: u64)
  {
    2 <= L && L % 2 == 0 && WalksEnd(L) && limit + 33 < TWO64 && SeedsWalkEnd(1, limit, L)
  }

  /** The records of thread t. */
  ghost function ThreadRecords(limit: nat, nt: nat, t: nat, L: u64, cache: seq<u16>): seq<SimdSeed>
    requires 1 <= nt && t < nt && RunOk(limit, L) && |cache| == L
  {
    ThreadWalks(limit, nt, Chunk(limit, nt), t, L);
    SimdRecords(ThreadStart(Chunk(limit, nt), t), ThreadEnd(limit, nt, Chunk(limit, nt), t), L, cache)
  }

  /** The globals after the first t threads have merged, one after the other. */
  ghost function MergeThreads(limit: nat, nt: nat, t: nat, L: u64, cache: seq<u16>): Locals
    requires 1 <= nt && t <= nt && RunOk(limit, L) && |cache| == L
  {
    if t == 0 then ResetLocals()
    else Absorb(MergeThreads(limit, nt, t - 1, L, cache), Fold(InitLocals(), ThreadRecords(limit, nt, t - 1, L, cache)))
  }

  /** The records of the first t threads, one after the other. */
  ghost function AllRecords(limit: nat, nt: nat, t: nat, L: u64, cache: seq<u16>): seq<SimdSeed>
    requires 1 <= nt && t <= nt && RunOk(limit, L) && |cache| == L
  {
    if t == 0 then [] else AllRecords(limit, nt, t - 1, L, cache) + ThreadRecords(limit, nt, t - 1, L, cache)
  }

  /** When every counted length fits in 32 bits, merging the workers one after the other
      is recording all their seeds in order on top of the reset globals. */
  lemma {:induction false} MergeThreadsFold(limit: nat, nt: nat, t: nat, L: u64, cache: seq<u16>)
    requires 1 <= nt && t <= nt && RunOk(limit, L) && |cache| == L
    requires LensFit(AllRecords(limit, nt, t, L, cache))
    ensures MergeThreads(limit, nt, t, L, cache) == Fold(ResetLocals(), AllRecords(limit, nt, t, L, cache))
  {
    if t > 0 {
      var a, b := AllRecords(limit, nt, t - 1, L, cache), ThreadRecords(limit, nt, t - 1, L, cache);
      assert AllRecords(limit, nt, t, L, cache) == a + b;
      assert LensFit(a) && LensFit(b) by {
        assert forall j :: 0 <= j < |a| ==> (a + b)[j] == a[j];
        assert forall j :: 0 <= j < |b| ==> (a + b)[|a| + j] == b[j];
      }
      MergeThreadsFold(limit, nt, t - 1, L, cache);
      AbsorbWorker(MergeThreads(limit, nt, t - 1, L, cache), b);
      FoldAppend(ResetLocals(), a, b);
    }
  }

  /** The seeds the records of the first t threads are about: their ranges' odd seeds. */
  lemma {:induction false} AllRecordsSeeds(limit: nat, nt: nat, t: nat, L: u64, cache: seq<u16>)
    requires 1 <= nt && t <= nt && RunOk(limit, L) && |cache| == L && L % 2 == 0
    ensures var rs := AllRecords(limit, nt, t, L, cache);
      |rs| == |ThreadSeeds(limit, nt, Chunk(limit, nt), t)| &&
      forall j :: 0 <= j < |rs| ==> rs[j].seed == ThreadSeeds(limit, nt, Chunk(limit, nt), t)[j]
  {
    if t > 0 {
      AllRecordsSeeds(limit, nt, t - 1, L, cache);
      var chunk := Chunk(limit, nt);
      var s, e := ThreadStart(chunk, t - 1), ThreadEnd(limit, nt, chunk, t - 1);
      ThreadWalks(limit, nt, chunk, t - 1, L);
      SimdRecordsSeeds(s, e, L, cache);
      var a: seq<SimdSeed>, b: seq<SimdSeed> := AllRecords(limit, nt, t - 1, L, cache), ThreadRecords(limit, nt, t - 1, L, cache);
      assert AllRecords(limit, nt, t, L, cache) == a + b;
      assert ThreadSeeds(limit, nt, chunk, t) == ThreadSeeds(limit, nt, chunk, t - 1) + Odds(s, e);
      SeedsAppend(a, b, ThreadSeeds(limit, nt, chunk, t - 1), Odds(s, e));
    }
  }

  /** Records matching seeds p and q, one after the other, match p + q. */
  lemma {:induction false} SeedsAppend(a: seq<SimdSeed>, b: seq<SimdSeed>, p: seq<nat>, q: seq<nat>)
    requires |a| == |p| && forall j :: 0 <= j < |a| ==> a[j].seed == p[j]
    requires |b| == |q| && forall j :: 0 <= j < |b| ==> b[j].seed == q[j]
    ensures |a + b| == |p + q| && forall j :: 0 <= j < |a + b| ==> (a + b)[j].seed == (p + q)[j]
  {
    forall j | 0 <= j < |a + b|
      ensures (a + b)[j].seed == (p + q)[j]
    {
      if j >= |a| {
        assert (a + b)[j] == b[j - |a|] && (p + q)[j] == q[j - |a|];
      }
    }
  }

  /** What the globals of collatz_compute_simd hold once every thread has merged, when
      every counted length fits in 32 bits: one record per seed of the thread ranges (the
      odd seeds of [1, limit), with seed chunk twice when there are two threads or more
      and chunk is odd); the first overflow is the least overflowed seed, UINT64_MAX when
      none is; the peak is the greatest counted peak, 0 when none is above 0; the longest
      record is the first counted seed of greatest length, seed 1 with length 0 when no
      length beats 0. */
  lemma {:induction false} ComputeMeaning(limit: nat, nt: nat, L: u64, cache: seq<u16>)
    requires 1 <= nt && RunOk(limit, L) && |cache| == L
    requires LensFit(AllRecords(limit, nt, nt, L, cache))
    ensures var rs, g := AllRecords(limit, nt, nt, L, cache), MergeThreads(limit, nt, nt, L, cache);
      var chunk := Chunk(limit, nt);
      var seeds := if nt >= 2 && chunk % 2 == 1 then Odds(1, chunk + 1) + Odds(chunk, limit) else Odds(1, limit);
      && |rs| == |seeds| && (forall j :: 0 <= j < |rs| ==> rs[j].seed == seeds[j])
      && (forall j :: 0 <= j < |rs| && rs[j].overflowed ==> g.firstOverflow <= rs[j].seed)
      && (g.firstOverflow == UINT64_MAX || exists j :: 0 <= j < |rs| && rs[j].overflowed && g.firstOverflow == rs[j].seed)
      && (forall j :: 0 <= j < |rs| && rs[j].counted ==> rs[j].peak <= g.maxPeak)
      && (g.maxPeak == 0 || exists j :: 0 <= j < |rs| && rs[j].counted && g.maxPeak == rs[j].peak)
      && (forall j :: 0 <= j < |rs| && rs[j].counted ==> rs[j].len <= g.longest.len)
      && (g.longest == Longest(0, 1) ||
          exists j :: 0 <= j < |rs| && rs[j].counted && g.longest == Longest(rs[j].len, rs[j].seed) &&
            forall i :: 0 <= i < j && rs[i].counted ==> rs[i].len < g.longest.len)
  {
    var rs := AllRecords(limit, nt, nt, L, cache);
    MergeThreadsFold(limit, nt, nt, L, cache);
    AllRecordsSeeds(limit, nt, nt, L, cache);
    PartitionSeeds(limit, nt);
    FoldOverflowSpec(UINT64_MAX, rs);
    FoldPeakSpec(0, rs);
    FoldLongestSpec(Longest(0, 1), rs);
  }

  /** The result record: the globals as read back, with "no overflow" reported as 0. */
  function SimdResultOf(limit: u64, g: Locals): (r: ScalarCompute.CollatzResult)
    ensures r.firstOverflow == 0 <==> g.firstOverflow == UINT64_MAX || g.firstOverflow == 0
  {
    ScalarCompute.CollatzResult(limit, if g.firstOverflow == UINT64_MAX then 0 else g.firstOverflow,
                  g.longest.len, g.longest.seed, g.maxPeak)
  }

  /** collatz_compute_simd: reset the globals, build the cache, run the workers on their
      ranges one after the other, merge each, and report. */
  method ComputeSimd(pf: Platform, limit: u64, countThread: int, hw: nat, L: u64)
    returns (r: ScalarCompute.CollatzResult, g: SimdGlobals, cache: array<u16>)
    requires RunOk(limit, L)
    ensures fresh(cache) && cache.Length == L && CacheCorrect(cache[..])
    ensures g.Current() == MergeThreads(limit, NumThreads(countThread, hw), NumThreads(countThread, hw), L, cache[..])
    ensures r == SimdResultOf(limit, g.Current())
  {
    g := new SimdGlobals();
    g.Reset();
    cache := BuildCacheSequential(L);
    var nt := NumThreads(countThread, hw);
    RunThreads(g, pf, cache[..], limit, nt, L);
    var fo := g.firstOverflow;
    if fo == UINT64_MAX {
      fo := 0;
    }
    r := ScalarCompute.CollatzResult(limit, fo, g.longestLen, g.longestSeed, g.maxPeak);
  }

  /** The thread loop of collatz_compute_simd, each thread run to completion and merged
      before the next starts. */
  method RunThreads(g: SimdGlobals, pf: Platform, cache: seq<u16>, limit: u64, nt: nat, L: u64)
    requires 1 <= nt && RunOk(limit, L) && |cache| == L
    requires g.Current() == ResetLocals()
    modifies g
    ensures g.Current() == MergeThreads(limit, nt, nt, L, cache)
  {
    var chunk: nat := limit / nt;
    var t := 0;
    while t < nt
      invariant 0 <= t <= nt && chunk == Chunk(limit, nt)
      invariant g.Current() == MergeThreads(limit, nt, t, L, cache)
    {
      var s: nat := if t == 0 then 1 else t * chunk;
      var e: nat := if t == nt - 1 then limit else s + chunk;
      RunThread(g, pf, cache, limit, nt, t, L, s, e);
      t := t + 1;
    }
  }

  /** One thread of collatz_compute_simd: worker_simd on [s, e) and its merge. */
  method RunThread(g: SimdGlobals, pf: Platform, cache: seq<u16>, limit: u64, nt: nat, t: nat, L: u64, s: nat, e: nat)
    requires 1 <= nt && t < nt && RunOk(limit, L) && |cache| == L
    requires s == ThreadStart(Chunk(limit, nt), t) && e == ThreadEnd(limit, nt, Chunk(limit, nt), t)
    requires g.Current() == MergeThreads(limit, nt, t, L, cache)
    modifies g
    ensures g.Current() == MergeThreads(limit, nt, t + 1, L, cache)
  {
    ThreadWalks(limit, nt, Chunk(limit, nt), t, L);
    var loc := WorkerSimd(pf, cache, L, s, e);
    g.Merge(loc);
  }
}
