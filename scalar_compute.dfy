/** The aggregation and driver of the scalar engine (lib/collatz.cpp): the global records
    every worker merges into when it finishes, and collatz_compute, which builds the cache,
    splits [1, limit] among the workers and assembles the result. */
module ScalarCompute {
  import opened Words
  import opened Collatz
  import opened Cache
  import opened ScalarStats
  import opened ScalarWorker

  /** The integer fields of a CollatzResult (timing is not modelled). */
  datatype CollatzResult = CollatzResult(limit: u64, firstOverflow: u64, longestLen: u32,
                                         longestSeed: u64, maxPeak: u64)

  /** The global records: first overflow, greatest peak, longest chain and its seed, and
      the histogram map from length bucket to count. */
  datatype Totals = Totals(firstOverflow: u64, maxPeak: u64, longest: Longest, hist: map<nat, nat>)

  /** The values collatz_compute resets the globals to before a run. */
  function ResetTotals(): (t: Totals)
    ensures t.firstOverflow == INT64_MAX && t.hist == map[]
  {
    Totals(INT64_MAX, 0, Longest(0, 1), map[])
  }

  // ---------------------------------------------------------------- histogram map

  /** The count a map holds for a bucket, 0 for a bucket it has no key for. */
  function Count(m: map<nat, nat>, k: nat): nat
  {
    if k in m then m[k] else 0
  }

  /** The histogram merge loop of worker_static over the first |h| buckets: each nonzero
      bucket j adds h[j] to the map's count for j. */
  function MergeHist(m: map<nat, nat>, h: seq<nat>): map<nat, nat>
  {
    if |h| == 0 then m
    else
      var q := MergeHist(m, h[..|h| - 1]);
      var j := |h| - 1;
      if h[j] > 0 then q[j := Count(q, j) + h[j]] else q
  }

  /** The merge adds each local bucket to the global count, creates a key only for a
      nonzero bucket, and leaves every other key as it was. */
  lemma {:induction false} MergeHistCounts(m: map<nat, nat>, h: seq<nat>)
    ensures forall k: nat :: Count(MergeHist(m, h), k) == Count(m, k) + (if k < |h| then h[k] else 0)
    ensures forall k: nat :: k in MergeHist(m, h) <==> k in m || (k < |h| && h[k] > 0)
  {
    if |h| > 0 {
      MergeHistCounts(m, h[..|h| - 1]);
    }
  }

  /** A map of counts with one more for every bucket in bs. */
  function AddBuckets(m: map<nat, nat>, bs: seq<nat>): map<nat, nat>
  {
    map k | k in m.Keys + set j | 0 <= j < |bs| :: bs[j] :: Count(m, k) + multiset(bs)[k]
  }

  /** The global histogram after merging a worker's local histogram: the bucket of every
      seed the worker recorded is counted once more, and no zero count is created. */
  lemma {:induction false} MergeWorkerHist(m: map<nat, nat>, ss: seq<SeedStat>)
    ensures MergeHist(m, Tally(InitStats(), ss).hist) == AddBuckets(m, BucketsOf(ss))
  {
    TallyHistCounts(InitStats().hist, ss);
    MergeCounts(m, Tally(InitStats(), ss).hist, BucketsOf(ss));
  }

  /** Merging a histogram that counts the buckets bs adds bs to the map. */
  lemma {:induction false} MergeCounts(m: map<nat, nat>, h: seq<nat>, bs: seq<nat>)
    requires |h| == HIST_SIZE && forall j :: 0 <= j < |bs| ==> bs[j] < HIST_SIZE
    requires forall b :: 0 <= b < HIST_SIZE ==> h[b] == multiset(bs)[b]
    ensures MergeHist(m, h) == AddBuckets(m, bs)
  {
    MergeHistCounts(m, h);
    var a := MergeHist(m, h);
    var b := AddBuckets(m, bs);
    forall k: nat ensures k in a <==> k in b {
      BucketKey(bs, k);
    }
    forall k | k in a ensures a[k] == b[k] {
      assert Count(a, k) == a[k];
    }
  }

  /** A bucket occurs among bs exactly when the multiset of bs counts it, and then it is a
      histogram slot. */
  lemma {:induction false} BucketKey(bs: seq<nat>, k: nat)
    requires forall j :: 0 <= j < |bs| ==> bs[j] < HIST_SIZE
    ensures k in (set j | 0 <= j < |bs| :: bs[j]) <==> k < HIST_SIZE && multiset(bs)[k] > 0
  {
    if k in multiset(bs) {
      var j :| 0 <= j < |bs| && bs[j] == k;
    }
  }

  lemma {:induction false} AddBucketsAppend(m: map<nat, nat>, a: seq<nat>, b: seq<nat>)
    ensures AddBuckets(AddBuckets(m, a), b) == AddBuckets(m, a + b)
  {
    assert multiset(a + b) == multiset(a) + multiset(b);
    var l := AddBuckets(AddBuckets(m, a), b);
    var r := AddBuckets(m, a + b);
    forall k ensures k in l <==> k in r {
      if k in (set j | 0 <= j < |a + b| :: (a + b)[j]) {
        var j :| 0 <= j < |a + b| && (a + b)[j] == k;
        if j >= |a| {
          assert b[j - |a|] == k;
        }
      }
      if k in (set j | 0 <= j < |b| :: b[j]) {
        var j :| 0 <= j < |b| && b[j] == k;
        assert (a + b)[|a| + j] == k;
      }
      if k in (set j | 0 <= j < |a| :: a[j]) {
        var j :| 0 <= j < |a| && a[j] == k;
        assert (a + b)[j] == k;
      }
    }
  }

  // ---------------------------------------------------------------- merging

  /** What the merge at the end of worker_static does to the globals: overflow and peak
      by atomic min and max, the longest record replaced only when strictly longer (the
      seed is written after a successful length exchange), and the histogram merge. */
  function Absorb(t: Totals, st: Stats): Totals
  {
    Totals(Min(t.firstOverflow, st.firstOverflow), Max(t.maxPeak, st.maxPeak),
           if st.longest.len > t.longest.len then st.longest else t.longest,
           MergeHist(t.hist, st.hist))
  }

  /** The globals after recording the seeds ss, in order, on top of t. */
  function Fold(t: Totals, ss: seq<SeedStat>): Totals
  {
    Totals(TallyOverflow(t.firstOverflow, ss), TallyPeak(t.maxPeak, ss),
           TallyLongest(t.longest, ss), AddBuckets(t.hist, BucketsOf(ss)))
  }

  /** Merging a worker's ThreadResult is recording its seeds on top of the globals: the
      min, max and strict-longest merges lose nothing that folding seed by seed would keep. */
  lemma {:induction false} AbsorbWorker(t: Totals, ss: seq<SeedStat>)
    requires t.firstOverflow <= INT64_MAX
    ensures Absorb(t, Tally(InitStats(), ss)) == Fold(t, ss)
  {
    TallyOverflowFrom(t.firstOverflow, INT64_MAX, ss);
    TallyPeakFrom(t.maxPeak, ss);
    TallyLongestFrom(t.longest, ss);
    MergeWorkerHist(t.hist, ss);
  }

  lemma {:induction false} FoldAppend(t: Totals, a: seq<SeedStat>, b: seq<SeedStat>)
    ensures Fold(Fold(t, a), b) == Fold(t, a + b)
  {
    TallyRestAppend(Stats([], t.longest, t.maxPeak, t.firstOverflow), a, b);
    assert BucketsOf(a + b) == BucketsOf(a) + BucketsOf(b);
    AddBucketsAppend(t.hist, BucketsOf(a), BucketsOf(b));
  }

  /** The global records the workers merge into. */
  class Globals {
    var firstOverflow: u64
    var maxPeak: u64
    var longestSeed: u64
    var longestLen: u32
    var histogram: map<nat, nat>

    function Current(): Totals
      reads this
    {
      Totals(firstOverflow, maxPeak, Longest(longestLen, longestSeed), histogram)
    }

    /** The reset at the top of collatz_compute. */
    constructor ()
      ensures Current() == ResetTotals()
    {
      firstOverflow, maxPeak, longestSeed, longestLen := INT64_MAX, 0, 1, 0;
      histogram := map[];
    }

    /** The merge at the end of worker_static. */
    method Merge(res: ThreadResult)
      requires res.Valid()
      modifies this
      ensures Current() == Absorb(old(Current()), res.Snapshot())
    {
      firstOverflow := Min(firstOverflow, res.firstOverflow);
      maxPeak := Max(maxPeak, res.maxPeak);
      if res.maxLength > longestLen {
        longestLen := res.maxLength;
        longestSeed := res.maxSeed;
      }
      MergeHistogram(res);
    }

    /** The histogram merge, under the histogram lock: every nonzero local bucket is added
        to the map. */
    method MergeHistogram(res: ThreadResult)
      requires res.Valid()
      modifies this`histogram
      ensures histogram == MergeHist(old(histogram), res.histogram[..])
    {
      ghost var h := res.histogram[..];
      var j := 0;
      while j < HIST_SIZE
        invariant 0 <= j <= HIST_SIZE
        invariant histogram == MergeHist(old(histogram), h[..j])
      {
        assert h[..j + 1][..j] == h[..j];
        if res.histogram[j] > 0 {
          histogram := histogram[j := Count(histogram, j) + res.histogram[j]];
        }
        j := j + 1;
      }
      assert h[..HIST_SIZE] == h;
    }
  }

  // ---------------------------------------------------------------- partitioning

  /** The thread count collatz_compute uses: 0 means 1, and no more threads than seeds
      (one thread when limit is 0). */
  function ThreadCount(limit: nat, countThread: nat): (nt: nat)
    ensures nt >= 1 && (limit >= 1 ==> nt <= limit)
    ensures countThread >= 1 && countThread <= limit ==> nt == countThread
    ensures countThread > limit >= 1 ==> nt == limit
    ensures countThread == 0 || limit == 0 ==> nt == 1
  {
    var nt := if countThread == 0 then 1 else countThread;
    if limit < nt then (if limit == 0 then 1 else limit) else nt
  }

  /** The seeds of [a, b] followed by those of [b + 1, c] are the seeds of [a, c]. */
  lemma {:induction false} WorkerSeedsJoin(a: nat, b: nat, c: nat)
    requires a <= b + 1 && b <= c
    ensures WorkerSeeds(a, b) + WorkerSeeds(b + 1, c) == WorkerSeeds(a, c)
  {
    if b + 1 >= 3 {
      OddsSplit(Max(a, 3), b + 1, c + 1);
    } else {
      assert WorkerSeeds(a, b) == [];
    }
  }

  /** The range of worker t of nt: [t * chunk + 1, (t + 1) * chunk], the last one ending
      at limit. With limit >= 1 no range starts past limit or ends past it, so the break
      and the clamp in collatz_compute never fire, and consecutive ranges meet. */
  lemma {:induction false} PartitionRange(limit: nat, nt: nat, t: nat)
    requires limit >= 1 && 1 <= nt <= limit && t < nt
    ensures var chunk := limit / nt;
      && chunk >= 1 && t * chunk + 1 <= limit
      && (if t == nt - 1 then limit else (t + 1) * chunk) <= limit
      && t * chunk + 1 <= (if t == nt - 1 then limit else (t + 1) * chunk) + 1
  {
    var chunk := limit / nt;
    assert chunk * nt <= limit;
    MulMono(t + 1, nt, chunk);
  }

  /** The last seed of worker t's range, [t * chunk + 1, (t + 1) * chunk], or limit for
      the last worker. */
  function RangeEnd(limit: nat, nt: nat, t: nat): nat
    requires nt >= 1
  {
    if t == nt - 1 then limit else (t + 1) * (limit / nt)
  }

  /** The seeds of the first t workers, one range after the other. */
  function Covered(limit: nat, nt: nat, t: nat): seq<nat>
    requires nt >= 1
  {
    if t == 0 then [] else Covered(limit, nt, t - 1) + WorkerSeeds((t - 1) * (limit / nt) + 1, RangeEnd(limit, nt, t - 1))
  }

  /** The worker ranges of collatz_compute, one after the other, cover the seeds [1, limit]
      exactly once and in order: every thread count yields the same seeds. */
  lemma {:induction false} PartitionCovers(limit: nat, countThread: nat, t: nat)
    requires limit >= 1 && t <= ThreadCount(limit, countThread)
    ensures var nt := ThreadCount(limit, countThread);
      Covered(limit, nt, t) == WorkerSeeds(1, if t == nt then limit else t * (limit / nt))
  {
    var nt := ThreadCount(limit, countThread);
    if t == 0 {
      assert WorkerSeeds(1, 0) == [];
    } else {
      PartitionCovers(limit, countThread, t - 1);
      PartitionRange(limit, nt, t - 1);
      WorkerSeedsJoin(1, (t - 1) * (limit / nt), RangeEnd(limit, nt, t - 1));
    }
  }

  // ---------------------------------------------------------------- collatz_compute

  /** The result record collatz_compute assembles from the globals. */
  function ResultOf(limit: u64, t: Totals): CollatzResult
  {
    CollatzResult(limit, t.firstOverflow, t.longest.len, t.longest.seed, t.maxPeak)
  }

  /** collatz_compute: reset the globals, build the cache phase by phase (with the
      hardware thread count guarded against 0, see Cache.BuildCacheGuarded), run the workers
      on [t * chunk + 1, (t + 1) * chunk] (the last one up to limit) one after the other,
      merge each, and report. The result is that of recording every odd seed of [3, limit]
      in increasing order, whatever the thread count. */
  method Compute(limit: u64, countThread: nat, cacheLimit: nat, phaseSize: nat, hwThreads: nat)
    returns (r: CollatzResult, g: Globals, cache: array<u16>)
    requires 2 <= cacheLimit < TWO64 && IsPow2(cacheLimit) && WalksEnd(cacheLimit)
    requires phaseSize > 0
    requires limit + 16 < TWO64
    requires AllSettle(WorkerSeeds(1, limit), cacheLimit)
    ensures fresh(cache) && cache.Length == cacheLimit && CacheCorrect(cache[..])
    ensures g.Current() == Fold(ResetTotals(), SeedStats(cache[..], WorkerSeeds(1, limit)))
    ensures r == ResultOf(limit, g.Current())
  {
    g := new Globals();
    cache := BuildCacheGuarded(cacheLimit, phaseSize, hwThreads);
    var nt := ThreadCount(limit, countThread);
    var chunk := limit / nt;
    if chunk == 0 {
      chunk := 1;
    }
    RunWorkers(g, cache, limit, nt, chunk);
    r := CollatzResult(limit, g.firstOverflow, g.longestLen, g.longestSeed, g.maxPeak);
  }

  /** The thread loop of collatz_compute, each thread run to completion and merged before
      the next starts. */
  method RunWorkers(g: Globals, cache: array<u16>, limit: u64, nt: nat, chunk: nat)
    requires IsPow2(cache.Length) && limit + 16 < TWO64
    requires nt >= 1 && (limit >= 1 ==> nt <= limit && chunk == limit / nt) && (limit == 0 ==> chunk == 1)
    requires AllSettle(WorkerSeeds(1, limit), cache.Length)
    requires g.Current() == ResetTotals()
    modifies g
    ensures g.Current() == Fold(ResetTotals(), SeedStats(cache[..], WorkerSeeds(1, limit)))
  {
    ghost var done := 0;
    assert WorkerSeeds(1, 0) == [];
    var t := 0;
    while t < nt
      invariant 0 <= t <= nt && done <= limit
      invariant limit >= 1 ==> done == (if t == nt then limit else t * chunk)
      invariant limit == 0 ==> done == 0
      invariant AllSettle(WorkerSeeds(1, done), cache.Length) && AllSettle(WorkerSeeds(done + 1, limit), cache.Length)
      invariant g.Current() == Fold(ResetTotals(), SeedStats(cache[..], WorkerSeeds(1, done)))
      invariant g.Current().firstOverflow <= INT64_MAX
    {
      var tStart := t * chunk + 1;
      var tEnd := if t == nt - 1 then limit else (t + 1) * chunk;
      if limit >= 1 {
        PartitionRange(limit, nt, t);
        assert tStart == done + 1 && tStart <= limit && done < tEnd + 1 && tEnd <= limit;
      } else {
        assert tStart == t + 1;
      }
      if tStart > limit {
        break;
      }
      if tEnd > limit {
        tEnd := limit;
      }
      WorkerSeedsJoin(done + 1, tEnd, limit);
      AllSettleSplit(WorkerSeeds(done + 1, tEnd), WorkerSeeds(tEnd + 1, limit), cache.Length);
      RunWorker(g, cache, tStart, tEnd);
      done := tEnd;
      t := t + 1;
    }
  }

  /** One thread of collatz_compute: worker_static on [tStart, tEnd] and its merge, which
      extends the recorded seeds from [1, tStart - 1] to [1, tEnd]. */
  method RunWorker(g: Globals, cache: array<u16>, tStart: u64, tEnd: u64)
    requires IsPow2(cache.Length) && tEnd + 16 < TWO64 && 1 <= tStart <= tEnd + 1
    requires AllSettle(WorkerSeeds(1, tStart - 1), cache.Length) && AllSettle(WorkerSeeds(tStart, tEnd), cache.Length)
    requires g.Current() == Fold(ResetTotals(), SeedStats(cache[..], WorkerSeeds(1, tStart - 1)))
    requires g.Current().firstOverflow <= INT64_MAX
    modifies g
    ensures AllSettle(WorkerSeeds(1, tEnd), cache.Length)
    ensures g.Current() == Fold(ResetTotals(), SeedStats(cache[..], WorkerSeeds(1, tEnd)))
    ensures g.Current().firstOverflow <= INT64_MAX
  {
    var res := WorkerStatic(cache, tStart, tEnd);
    ghost var before := g.Current();
    g.Merge(res);
    ComputeStep(cache[..], before, tStart - 1, tEnd);
  }

  /** One worker's merge extends the recorded seeds from [1, done] to [1, tEnd]. */
  lemma {:induction false} ComputeStep(cache: seq<u16>, before: Totals, done: nat, tEnd: nat)
    requires |cache| > 0 && done <= tEnd
    requires AllSettle(WorkerSeeds(1, done), |cache|) && AllSettle(WorkerSeeds(done + 1, tEnd), |cache|)
    requires before == Fold(ResetTotals(), SeedStats(cache, WorkerSeeds(1, done)))
    requires before.firstOverflow <= INT64_MAX
    ensures AllSettle(WorkerSeeds(1, tEnd), |cache|)
    ensures Absorb(before, Tally(InitStats(), SeedStats(cache, WorkerSeeds(done + 1, tEnd))))
         == Fold(ResetTotals(), SeedStats(cache, WorkerSeeds(1, tEnd)))
    ensures Fold(ResetTotals(), SeedStats(cache, WorkerSeeds(1, tEnd))).firstOverflow <= INT64_MAX
  {
    WorkerSeedsJoin(1, done, tEnd);
    SeedStatsAppend(cache, WorkerSeeds(1, done), WorkerSeeds(done + 1, tEnd));
    AbsorbWorker(before, SeedStats(cache, WorkerSeeds(done + 1, tEnd)));
    FoldAppend(ResetTotals(), SeedStats(cache, WorkerSeeds(1, done)), SeedStats(cache, WorkerSeeds(done + 1, tEnd)));
    TallyOverflowSpec(INT64_MAX, SeedStats(cache, WorkerSeeds(1, tEnd)));
  }

  /** What collatz_compute reports about the seeds it recorded: the smallest abandoned
      seed (INT64_MAX when none was), the greatest peak, the first seed of greatest length
      (seed 1 with length 0 when no length beats 0), and for every bucket the number of
      seeds whose length falls in it, with a key only for the buckets that occur. */
  lemma {:induction false} ReportMeaning(ss: seq<SeedStat>)
    ensures var t := Fold(ResetTotals(), ss);
      && (forall j :: 0 <= j < |ss| && ss[j].overflowed ==> t.firstOverflow <= ss[j].seed)
      && (t.firstOverflow == INT64_MAX || exists j :: 0 <= j < |ss| && ss[j].overflowed && t.firstOverflow == ss[j].seed)
      && (forall j :: 0 <= j < |ss| ==> ss[j].peak <= t.maxPeak)
      && (t.maxPeak == 0 || exists j :: 0 <= j < |ss| && t.maxPeak == ss[j].peak)
      && (forall j :: 0 <= j < |ss| ==> ss[j].len <= t.longest.len)
      && (t.longest == Longest(0, 1) ||
          exists j :: 0 <= j < |ss| && t.longest == Longest(ss[j].len, ss[j].seed) &&
            forall i :: 0 <= i < j ==> ss[i].len < t.longest.len)
      && (forall b: nat :: Count(t.hist, b) == multiset(BucketsOf(ss))[b])
      && (forall b: nat :: b in t.hist <==> b < HIST_SIZE && multiset(BucketsOf(ss))[b] > 0)
  {
    TallyOverflowSpec(INT64_MAX, ss);
    TallyPeakSpec(0, ss);
    TallyLongestSpec(Longest(0, 1), ss);
    forall b: nat ensures b in AddBuckets(map[], BucketsOf(ss)) <==> b < HIST_SIZE && multiset(BucketsOf(ss))[b] > 0 {
      BucketKey(BucketsOf(ss), b);
    }
  }
}
