/** worker_simd of the vector engine (lib/collatz_simd.cpp): the odd seeds of [start,
    end) in groups of sixteen walked in lockstep (eight NEON vectors of two lanes, or four
    AVX2 vectors of four), finished lane by lane against the cache, with overflowed seeds
    found by a scalar rescan (ARM) or read off the lane masks (x86); then the leftover
    seeds one at a time by the cleanup walk. */
module SimdWorker {
  import opened Words
  import opened ScalarStats
  import opened ScalarWorker
  import opened SimdLane
  import opened SimdStats
  import opened SimdCleanup

  /** The cache a worker reads: one entry per index below CACHE_LIMIT, which is even. */
  predicate Setup(L: u64, cache: seq<u16>)
  {
    2 <= L && L % 2 == 0 && |cache| == L
  }

  // ---------------------------------------------------------------- one group

  /** The sixteen seeds of the group at i: i, i+2, ..., i+30. */
  function GroupSeeds(i: u64): (s: seq<u64>)
    requires i + 30 < TWO64
    ensures |s| == 16 && forall j :: 0 <= j < 16 ==> s[j] == i + 2 * j
  {
    seq(16, j requires 0 <= j < 16 => i + 2 * j)
  }

  /** The record finalize and the overflow check make of a lane that has stopped. */
  function FinishedRecord(seed: u64, x: Lane, L: u64, cache: seq<u16>): SimdSeed
    requires Setup(L, cache) && x.v <= L
  {
    SimdSeed(seed, FinishSteps(x, L, cache), Drain(x, L).p, x.ovf, true)
  }

  function Finished(seeds: seq<u64>, out: seq<Lane>, L: u64, cache: seq<u16>): (rs: seq<SimdSeed>)
    requires Setup(L, cache) && |seeds| == |out| && forall j :: 0 <= j < |out| ==> out[j].v <= L
    ensures |rs| == |out|
  {
    seq(|out|, j requires 0 <= j < |out| => FinishedRecord(seeds[j], out[j], L, cache))
  }

  /** A witness for the walk of a seed's lane. */
  ghost function PickLane(seed: u64, L: u64): (k: nat)
    requires LaneSettlesSome(Load(seed, L), L)
    ensures LaneSettles(Load(seed, L), L, k)
  {
    var k: nat :| LaneSettles(Load(seed, L), L, k); k
  }

  /** The record of a seed walked in a group. */
  ghost function LaneRecord(seed: u64, L: u64, cache: seq<u16>): SimdSeed
    requires Setup(L, cache) && LaneSettlesSome(Load(seed, L), L)
  {
    FinishedRecord(seed, LaneRun(Load(seed, L), L, PickLane(seed, L)), L, cache)
  }

  lemma {:induction false} LaneRecordOf(seed: u64, L: u64, cache: seq<u16>, k: nat)
    requires Setup(L, cache) && LaneSettles(Load(seed, L), L, k)
    ensures LaneRecord(seed, L, cache) == FinishedRecord(seed, LaneRun(Load(seed, L), L, k), L, cache)
  {
    LaneRunWitness(Load(seed, L), L, k, PickLane(seed, L));
  }

  ghost predicate GroupWalksEnd(i: u64, L: u64)
    requires i + 30 < TWO64
  {
    forall j :: 0 <= j < 16 ==> LaneSettlesSome(Load(i + 2 * j, L), L)
  }

  /** The records of a group's seeds, in seed order. */
  ghost function GroupRecords(i: u64, L: u64, cache: seq<u16>): (rs: seq<SimdSeed>)
    requires i + 30 < TWO64 && Setup(L, cache) && GroupWalksEnd(i, L)
    ensures |rs| == 16 && forall j :: 0 <= j < 16 ==> rs[j].seed == i + 2 * j
  {
    seq(16, j requires 0 <= j < 16 => LaneRecord(i + 2 * j, L, cache))
  }

  /** finalize over the lanes of a group in seed order: each lane's count and peak, then
      `if (s > local_longest_len)` and `if (p > local_max_peak)`. */
  method FinalizeLanes(seeds: seq<u64>, out: seq<Lane>, L: u64, cache: seq<u16>, peak0: u64, longest0: Longest)
    returns (peak: u64, longest: Longest)
    requires Setup(L, cache) && |seeds| == |out| && forall j :: 0 <= j < |out| ==> out[j].v <= L
    ensures peak == FoldPeak(peak0, Finished(seeds, out, L, cache))
    ensures longest == FoldLongest(longest0, Finished(seeds, out, L, cache))
  {
    ghost var rs := Finished(seeds, out, L, cache);
    peak, longest := peak0, longest0;
    var j := 0;
    while j < |out|
      invariant 0 <= j <= |out|
      invariant peak == FoldPeak(peak0, rs[..j]) && longest == FoldLongest(longest0, rs[..j])
    {
      var s, p := FinishLane(out[j], L, cache);
      if s > longest.len {
        longest := Longest(Wrap32(s), seeds[j]);
      }
      if p > peak {
        peak := p;
      }
      assert rs[..j + 1][..j] == rs[..j];
      j := j + 1;
    }
    assert rs[..|out|] == rs;
  }

  /** The ARM rescan: every seed of the group walked again by the scalar rescan, the
      first-overflow record lowered to each seed it flags. */
  method RescanLanes(seeds: seq<u64>, L: u64, ghost ks: seq<nat>, fo0: u64, ghost rs: seq<SimdSeed>) returns (fo: u64)
    requires |seeds| == |ks| == |rs|
    requires forall j :: 0 <= j < |seeds| ==> RescanSettles(seeds[j], L, ks[j])
    requires forall j :: 0 <= j < |seeds| ==> rs[j].seed == seeds[j] && rs[j].overflowed == RescanHit(seeds[j], L, ks[j])
    ensures fo == FoldOverflow(fo0, rs)
  {
    fo := fo0;
    var j := 0;
    while j < |seeds|
      invariant 0 <= j <= |seeds| && fo == FoldOverflow(fo0, rs[..j])
    {
      var hit := RescanSeed(seeds[j], L, ks[j]);
      if hit && seeds[j] < fo {
        fo := seeds[j];
      }
      assert rs[..j + 1][..j] == rs[..j];
      j := j + 1;
    }
    assert rs[..|seeds|] == rs;
  }

  /** The x86 attribution: lane l of vector v overflowed means seed i + 8v + 2l did. */
  method AttributeOverflow(i: u64, out: seq<Lane>, fo0: u64, ghost rs: seq<SimdSeed>) returns (fo: u64)
    requires i + 30 < TWO64 && |out| == |rs| == 16
    requires forall j :: 0 <= j < 16 ==> rs[j].seed == i + 2 * j && rs[j].overflowed == out[j].ovf
    ensures fo == FoldOverflow(fo0, rs)
  {
    fo := fo0;
    var v := 0;
    while v < 4
      invariant 0 <= v <= 4 && fo == FoldOverflow(fo0, rs[..4 * v])
    {
      var l := 0;
      while l < 4
        invariant 0 <= l <= 4 && fo == FoldOverflow(fo0, rs[..4 * v + l])
      {
        if out[4 * v + l].ovf {
          var seed := i + v * 8 + l * 2;
          if seed < fo {
            fo := seed;
          }
        }
        assert rs[..4 * v + l + 1][..4 * v + l] == rs[..4 * v + l];
        l := l + 1;
      }
      v := v + 1;
    }
    assert rs[..16] == rs;
  }

  predicate AnyOverflow(out: seq<Lane>)
  {
    exists j :: 0 <= j < |out| && out[j].ovf
  }

  /** With no overflowed record the first-overflow record is left alone: the source skips
      the rescan or the attribution when the overflow masks are all clear. */
  lemma {:induction false} NoOverflowKeeps(fo0: u64, rs: seq<SimdSeed>)
    requires forall j :: 0 <= j < |rs| ==> !rs[j].overflowed
    ensures FoldOverflow(fo0, rs) == fo0
  {
    FoldOverflowSpec(fo0, rs);
  }

  /** One group of the worker loop: load, walk in lockstep, then on ARM finalize and
      rescan, on x86 attribute overflow and finalize. Either way the locals end up as if
      the group's records had been folded in seed order. */
  method RunGroup(pf: Platform, i: u64, L: u64, cache: seq<u16>, loc: Locals) returns (loc': Locals)
    requires i + 30 < TWO64 && Setup(L, cache) && GroupWalksEnd(i, L)
    ensures loc' == Fold(loc, GroupRecords(i, L, cache))
  {
    var seeds := GroupSeeds(i);
    var lanes := seq(16, j requires 0 <= j < 16 => Load(seeds[j], L));
    ghost var ks := seq(16, j requires 0 <= j < 16 => PickLane(seeds[j], L));
    var out := WalkVectors(pf, lanes, L, ks);
    ghost var rs := Finished(seeds, out, L, cache);
    forall j | 0 <= j < 16
      ensures rs[j] == GroupRecords(i, L, cache)[j]
    {
      LaneRecordOf(seeds[j], L, cache, ks[j]);
    }
    assert rs == GroupRecords(i, L, cache);
    var peak, longest, fo := loc.maxPeak, loc.longest, loc.firstOverflow;
    if pf == Arm {
      peak, longest := FinalizeLanes(seeds, out, L, cache, peak, longest);
      if AnyOverflow(out) {
        ghost var ks1 := seq(16, j requires 0 <= j < 16 => ks[j] + 1);
        forall j | 0 <= j < 16
          ensures RescanSettles(seeds[j], L, ks1[j]) && rs[j].overflowed == RescanHit(seeds[j], L, ks1[j])
        {
          RescanMatchesLane(lanes[j], L, ks[j]);
        }
        fo := RescanLanes(seeds, L, ks1, fo, rs);
      } else {
        NoOverflowKeeps(fo, rs);
      }
    } else {
      if AnyOverflow(out) {
        fo := AttributeOverflow(i, out, fo, rs);
      } else {
        NoOverflowKeeps(fo, rs);
      }
      peak, longest := FinalizeLanes(seeds, out, L, cache, peak, longest);
    }
    loc' := Locals(peak, longest, fo);
  }

  // ---------------------------------------------------------------- cleanup seeds

  ghost function PickCleanup(seed: u64, L: u64): (k: nat)
    requires CleanupSettlesSome(seed, L)
    ensures CleanupSettles(seed, L, k)
  {
    var k: nat :| CleanupSettles(seed, L, k); k
  }

  /** The end of one cleanup seed: `if (local_first_overflow > i)` at the break, or the
      longest and peak updates once the cache entry is added. */
  method NoteCleanup(loc: Locals, r: SimdSeed) returns (loc': Locals)
    requires r.overflowed != r.counted
    ensures loc' == Fold(loc, [r])
  {
    FoldLast(loc, [], r);
    loc' := loc;
    if r.overflowed {
      if loc'.firstOverflow > r.seed {
        loc' := loc'.(firstOverflow := r.seed);
      }
    } else {
      if r.len > loc'.longest.len {
        loc' := loc'.(longest := Longest(Wrap32(r.len), r.seed));
      }
      if r.peak > loc'.maxPeak {
        loc' := loc'.(maxPeak := r.peak);
      }
    }
  }

  // ---------------------------------------------------------------- the worker

  /** Every odd seed of [lo, hi) is a 64-bit word whose lane walk and cleanup walk both
      end: what the source's unbounded loops rely on. */
  ghost predicate SeedsWalkEnd(lo: nat, hi: nat, L: u64)
  {
    AllWalkEnd(Odds(lo, hi), L)
  }

  ghost predicate AllWalkEnd(seeds: seq<nat>, L: u64)
  {
    forall j :: 0 <= j < |seeds| ==> SeedWalksEnd(seeds[j], L)
  }

  ghost predicate SeedWalksEnd(s: nat, L: u64)
  {
    s < TWO64 && LaneSettlesSome(Load(s, L), L) && CleanupSettlesSome(s, L)
  }

  lemma {:induction false} AllWalkEndSplit(a: seq<nat>, b: seq<nat>, L: u64)
    requires AllWalkEnd(a + b, L)
    ensures AllWalkEnd(a, L) && AllWalkEnd(b, L)
  {
    forall j | 0 <= j < |a|
      ensures SeedWalksEnd(a[j], L)
    {
      assert (a + b)[j] == a[j];
    }
    forall j | 0 <= j < |b|
      ensures SeedWalksEnd(b[j], L)
    {
      assert (a + b)[|a| + j] == b[j];
    }
  }

  ghost function CleanupRecords(seeds: seq<nat>, L: u64, cache: seq<u16>): (rs: seq<SimdSeed>)
    requires |cache| == L && AllWalkEnd(seeds, L)
    ensures |rs| == |seeds| && forall j :: 0 <= j < |seeds| ==> rs[j].seed == seeds[j]
  {
    seq(|seeds|, j requires 0 <= j < |seeds| => CleanupRecord(seeds[j], L, cache))
  }

  /** The odd seeds of a group's range are its sixteen seeds, and the rest of the range
      still satisfies the walk requirement. */
  lemma {:induction false} GroupSplit(i: nat, end: nat, L: u64)
    requires i % 2 == 1 && i + 30 < end < TWO64 && SeedsWalkEnd(i, end, L)
    ensures Odds(i, end) == Odds(i, i + 32) + Odds(i + 32, end)
    ensures |Odds(i, i + 32)| == 16 && forall j :: 0 <= j < 16 ==> Odds(i, i + 32)[j] == i + 2 * j
    ensures i + 30 < TWO64 && GroupWalksEnd(i, L) && SeedsWalkEnd(i + 32, end, L)
  {
    OddsGroupSplit(i, end);
    var a := Odds(i, i + 32);
    AllWalkEndSplit(a, Odds(i + 32, end), L);
    forall j | 0 <= j < 16
      ensures LaneSettlesSome(Load(i + 2 * j, L), L)
    {
      assert SeedWalksEnd(a[j], L);
    }
  }

  lemma {:induction false} OddsGroupSplit(i: nat, end: nat)
    requires i % 2 == 1 && i + 30 < end
    ensures Odds(i, end) == Odds(i, i + 32) + Odds(i + 32, end)
    ensures |Odds(i, i + 32)| == 16 && forall j :: 0 <= j < 16 ==> Odds(i, i + 32)[j] == i + 2 * j
  {
    OddsRun(i, 16);
    if i + 32 <= end {
      OddsSplit(i, i + 32, end);
    } else {
      OddsSplit(i, i + 31, i + 32);
      assert Odds(i + 31, i + 32) == [] + Odds(i + 32, i + 32);
    }
  }

  /** n consecutive odd numbers from an odd start. */
  lemma {:induction false} OddsRun(i: nat, n: nat)
    requires i % 2 == 1
    ensures |Odds(i, i + 2 * n)| == n
    ensures forall j :: 0 <= j < n ==> Odds(i, i + 2 * n)[j] == i + 2 * j
    decreases n
  {
    if n > 0 {
      var hi := i + 2 * n;
      OddsStep(i, hi);
      OddsRun(i + 2, n - 1);
      var rest := Odds(i + 2, hi);
      assert rest == Odds(i + 2, (i + 2) + 2 * (n - 1));
      assert forall j :: 0 <= j < n - 1 ==> rest[j] == i + 2 + 2 * j;
      forall j | 0 <= j < n
        ensures Odds(i, hi)[j] == i + 2 * j
      {
        if j > 0 {
          assert Odds(i, hi)[j] == rest[j - 1];
        }
      }
    }
  }

  /** An odd seed below end heads the odd seeds of [i, end). */
  lemma {:induction false} OddsHead(i: nat, end: nat)
    requires i % 2 == 1 && i < end
    ensures Odds(i, end) == [i] + Odds(i + 2, end)
  {
    if i + 2 <= end {
      OddsStep(i, end);
    } else {
      assert Odds(i + 1, end) == [];
    }
  }

  /** The records of a worker from the odd seed i on: whole groups while i + 30 < end,
      then the cleanup seeds. */
  ghost function WorkerRecords(i: nat, end: nat, L: u64, cache: seq<u16>): seq<SimdSeed>
    requires i % 2 == 1 && end < TWO64 && Setup(L, cache) && SeedsWalkEnd(i, end, L)
    decreases end - i
  {
    if i + 30 < end then
      GroupSplit(i, end, L);
      GroupRecords(i, L, cache) + WorkerRecords(i + 32, end, L, cache)
    else
      CleanupRecords(Odds(i, end), L, cache)
  }

  /** The worker records every odd seed of its range exactly once, in increasing order. */
  lemma {:induction false} WorkerRecordsSeeds(i: nat, end: nat, L: u64, cache: seq<u16>)
    requires i % 2 == 1 && end < TWO64 && Setup(L, cache) && SeedsWalkEnd(i, end, L)
    ensures var rs := WorkerRecords(i, end, L, cache);
      |rs| == |Odds(i, end)| && forall j :: 0 <= j < |rs| ==> rs[j].seed == Odds(i, end)[j]
    decreases end - i
  {
    if i + 30 < end {
      WorkerRecordsGroup(i, end, L, cache);
      OddsGroupSplit(i, end);
      WorkerRecordsSeeds(i + 32, end, L, cache);
      var g: seq<SimdSeed>, w: seq<SimdSeed> := GroupRecords(i, L, cache), WorkerRecords(i + 32, end, L, cache);
      var a, b := Odds(i, i + 32), Odds(i + 32, end);
      forall j | 0 <= j < |g| + |w|
        ensures (g + w)[j].seed == (a + b)[j]
      {
        if j >= 16 {
          assert (g + w)[j] == w[j - 16] && (a + b)[j] == b[j - 16];
        }
      }
    }
  }

  /** The first seed a worker looks at: start, moved up to odd. */
  function FirstOdd(start: nat): nat
  {
    if start % 2 == 0 then start + 1 else start
  }

  lemma {:induction false} FirstOddSeeds(start: nat, end: nat)
    ensures Odds(FirstOdd(start), end) == Odds(start, end)
  {
    if start % 2 == 0 && start < end {
      assert Odds(start, end) == [] + Odds(start + 1, end);
    }
  }

  /** The records of worker_simd(start, end): the odd seeds of [start, end). */
  ghost function SimdRecords(start: nat, end: nat, L: u64, cache: seq<u16>): seq<SimdSeed>
    requires end < TWO64 && Setup(L, cache) && SeedsWalkEnd(start, end, L)
  {
    FirstOddSeeds(start, end);
    WorkerRecords(FirstOdd(start), end, L, cache)
  }

  /** worker_simd records every odd seed of [start, end) once, in increasing order. */
  lemma {:induction false} SimdRecordsSeeds(start: nat, end: nat, L: u64, cache: seq<u16>)
    requires end < TWO64 && Setup(L, cache) && SeedsWalkEnd(start, end, L)
    ensures var rs := SimdRecords(start, end, L, cache);
      |rs| == |Odds(start, end)| && forall j :: 0 <= j < |rs| ==> rs[j].seed == Odds(start, end)[j]
  {
    FirstOddSeeds(start, end);
    WorkerRecordsSeeds(FirstOdd(start), end, L, cache);
  }

  /** worker_simd: the locals it merges are the fold of its seeds' records in increasing
      seed order, whatever the vector width. */
  method WorkerSimd(pf: Platform, cache: seq<u16>, L: u64, start: u64, end: u64) returns (loc: Locals)
    requires Setup(L, cache) && end + 32 < TWO64 && SeedsWalkEnd(start, end, L)
    ensures loc == Fold(InitLocals(), SimdRecords(start, end, L, cache))
  {
    FirstOddSeeds(start, end);
    var i := start;
    if i % 2 == 0 {
      i := i + 1;
    }
    loc, i := GroupLoop(pf, cache, L, i, end);
    loc := CleanupLoop(cache, L, i, end, loc);
  }

  /** `for (; i + 30 < end; i += 32)`: whole groups, leaving the cleanup seeds. */
  method GroupLoop(pf: Platform, cache: seq<u16>, L: u64, first: u64, end: u64) returns (loc: Locals, i: u64)
    requires Setup(L, cache) && first % 2 == 1 && end + 32 < TWO64 && SeedsWalkEnd(first, end, L)
    ensures i % 2 == 1 && SeedsWalkEnd(i, end, L)
    ensures Fold(InitLocals(), WorkerRecords(first, end, L, cache)) == Fold(loc, CleanupRecords(Odds(i, end), L, cache))
  {
    i, loc := first, InitLocals();
    while i + 30 < end
      invariant i % 2 == 1 && SeedsWalkEnd(i, end, L)
      invariant Fold(InitLocals(), WorkerRecords(first, end, L, cache)) == Fold(loc, WorkerRecords(i, end, L, cache))
      decreases end - i
    {
      GroupFoldStep(loc, i, end, L, cache);
      loc := RunGroup(pf, i, L, cache, loc);
      i := i + 32;
    }
    WorkerRecordsTail(i, end, L, cache);
  }

  /** `for (; i < end; i += 2)`: the remaining seeds one at a time. */
  method CleanupLoop(cache: seq<u16>, L: u64, first: u64, end: u64, loc0: Locals) returns (loc: Locals)
    requires Setup(L, cache) && first % 2 == 1 && end < TWO64 && SeedsWalkEnd(first, end, L)
    ensures loc == Fold(loc0, CleanupRecords(Odds(first, end), L, cache))
  {
    var i := first;
    loc := loc0;
    while i < end
      invariant i % 2 == 1 && SeedsWalkEnd(i, end, L)
      invariant Fold(loc0, CleanupRecords(Odds(first, end), L, cache)) == Fold(loc, CleanupRecords(Odds(i, end), L, cache))
      decreases end - i
    {
      CleanupFoldStep(loc, i, end, L, cache);
      var r := CleanupSeed(i, L, cache, PickCleanup(i, L));
      loc := NoteCleanup(loc, r);
      i := i + 2;
    }
    assert Odds(i, end) == [];
  }

  /** Recording the remaining cleanup seeds is recording the first, then the rest. */
  lemma {:induction false} CleanupFoldStep(loc: Locals, i: nat, end: nat, L: u64, cache: seq<u16>)
    requires i % 2 == 1 && i < end < TWO64 && Setup(L, cache) && SeedsWalkEnd(i, end, L)
    ensures i < TWO64 && CleanupSettlesSome(i, L) && SeedsWalkEnd(i + 2, end, L)
    ensures CleanupRecord(i, L, cache).overflowed != CleanupRecord(i, L, cache).counted
    ensures Fold(loc, CleanupRecords(Odds(i, end), L, cache))
         == Fold(Fold(loc, [CleanupRecord(i, L, cache)]), CleanupRecords(Odds(i + 2, end), L, cache))
  {
    CleanupStepSeeds(i, end, L, cache);
    FoldAppend(loc, [CleanupRecord(i, L, cache)], CleanupRecords(Odds(i + 2, end), L, cache));
  }

  /** Taking the first cleanup seed off the remaining ones. */
  lemma {:induction false} CleanupStepSeeds(i: nat, end: nat, L: u64, cache: seq<u16>)
    requires i % 2 == 1 && i < end < TWO64 && Setup(L, cache) && SeedsWalkEnd(i, end, L)
    ensures i < TWO64 && CleanupSettlesSome(i, L) && SeedsWalkEnd(i + 2, end, L)
    ensures CleanupRecords(Odds(i, end), L, cache)
         == [CleanupRecord(i, L, cache)] + CleanupRecords(Odds(i + 2, end), L, cache)
    ensures CleanupRecord(i, L, cache).overflowed != CleanupRecord(i, L, cache).counted
  {
    OddsHead(i, end);
    var rest := Odds(i + 2, end);
    AllWalkEndSplit([i], rest, L);
    assert SeedWalksEnd([i][0], L);
    CleanupRecordsCons(i, rest, L, cache);
    CleanupRecordOf(i, L, cache, PickCleanup(i, L));
  }

  lemma {:induction false} CleanupRecordsCons(s: nat, rest: seq<nat>, L: u64, cache: seq<u16>)
    requires |cache| == L && SeedWalksEnd(s, L) && AllWalkEnd(rest, L)
    ensures AllWalkEnd([s] + rest, L)
    ensures CleanupRecords([s] + rest, L, cache) == [CleanupRecord(s, L, cache)] + CleanupRecords(rest, L, cache)
  {
    var o := [s] + rest;
    forall j | 0 <= j < |o|
      ensures SeedWalksEnd(o[j], L)
    {
      if j > 0 {
        assert o[j] == rest[j - 1];
      }
    }
    var a, c := CleanupRecords(o, L, cache), [CleanupRecord(s, L, cache)] + CleanupRecords(rest, L, cache);
    forall j | 0 <= j < |a|
      ensures a[j] == c[j]
    {
      if j > 0 {
        assert o[j] == rest[j - 1];
      }
    }
  }

  /** Recording the worker's remaining seeds is recording the next group, then the rest. */
  lemma {:induction false} GroupFoldStep(loc: Locals, i: nat, end: nat, L: u64, cache: seq<u16>)
    requires i % 2 == 1 && i + 30 < end < TWO64 && Setup(L, cache) && SeedsWalkEnd(i, end, L)
    ensures i + 30 < TWO64 && GroupWalksEnd(i, L) && SeedsWalkEnd(i + 32, end, L)
    ensures Fold(loc, WorkerRecords(i, end, L, cache))
         == Fold(Fold(loc, GroupRecords(i, L, cache)), WorkerRecords(i + 32, end, L, cache))
  {
    WorkerRecordsGroup(i, end, L, cache);
    FoldAppend(loc, GroupRecords(i, L, cache), WorkerRecords(i + 32, end, L, cache));
  }

  /** Short of a whole group, the worker's remaining seeds are cleanup seeds. */
  lemma {:induction false} WorkerRecordsTail(i: nat, end: nat, L: u64, cache: seq<u16>)
    requires i % 2 == 1 && end < i + 31 && end < TWO64 && Setup(L, cache) && SeedsWalkEnd(i, end, L)
    ensures WorkerRecords(i, end, L, cache) == CleanupRecords(Odds(i, end), L, cache)
  {
  }

  lemma {:induction false} WorkerRecordsGroup(i: nat, end: nat, L: u64, cache: seq<u16>)
    requires i % 2 == 1 && i + 30 < end < TWO64 && Setup(L, cache) && SeedsWalkEnd(i, end, L)
    ensures i + 30 < TWO64 && GroupWalksEnd(i, L) && SeedsWalkEnd(i + 32, end, L)
    ensures WorkerRecords(i, end, L, cache) == GroupRecords(i, L, cache) + WorkerRecords(i + 32, end, L, cache)
  {
    GroupSplit(i, end, L);
  }
}
