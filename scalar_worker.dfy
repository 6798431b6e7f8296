/** worker_static of the scalar engine (lib/collatz.cpp): the odd seeds of a range, eight
    at a time in lockstep and then one at a time, recorded into a ThreadResult. */
module ScalarWorker {
  import opened Words
  import opened Collatz
  import opened Cache
  import opened ScalarStep
  import opened ScalarStats

  // ---------------------------------------------------------------- seeds

  /** The odd numbers in [lo, hi), in increasing order. */
  function Odds(lo: nat, hi: nat): seq<nat>
    decreases hi - lo
  {
    if lo >= hi then [] else (if lo % 2 == 1 then [lo] else []) + Odds(lo + 1, hi)
  }

  lemma {:induction false} OddsMembers(lo: nat, hi: nat)
    ensures forall j :: 0 <= j < |Odds(lo, hi)| ==> lo <= Odds(lo, hi)[j] < hi && Odds(lo, hi)[j] % 2 == 1
    decreases hi - lo
  {
    if lo < hi {
      OddsMembers(lo + 1, hi);
    }
  }

  lemma {:induction false} OddsSplit(a: nat, b: nat, c: nat)
    requires a <= b <= c
    ensures Odds(a, c) == Odds(a, b) + Odds(b, c)
    decreases b - a
  {
    if a < b {
      OddsSplit(a + 1, b, c);
    }
  }

  lemma {:induction false} OddsStep(lo: nat, hi: nat)
    requires lo % 2 == 1 && lo + 2 <= hi
    ensures Odds(lo, hi) == [lo] + Odds(lo + 2, hi)
  {
    assert Odds(lo + 1, hi) == [] + Odds(lo + 2, hi);
  }

  /** An odd start and sixteen numbers: the eight seeds i, i+2, ..., i+14 of one group. */
  lemma {:induction false} OddsGroup(i: nat)
    requires i % 2 == 1
    ensures Odds(i, i + 16) == [i, i + 2, i + 4, i + 6, i + 8, i + 10, i + 12, i + 14]
  {
    OddsStep(i, i + 16);
    OddsStep(i + 2, i + 16);
    OddsStep(i + 4, i + 16);
    OddsStep(i + 6, i + 16);
    OddsStep(i + 8, i + 16);
    OddsStep(i + 10, i + 16);
    OddsStep(i + 12, i + 16);
    OddsStep(i + 14, i + 16);
  }

  /** The start normalisation of worker_static (an even start moves up by one, a start of
      at most 1 becomes 3) keeps exactly the odd seeds from max(start, 3) on. */
  lemma {:induction false} NormalizedStart(start: nat, s: nat, hi: nat)
    requires s == (if (if start % 2 == 0 then start + 1 else start) <= 1 then 3
                   else if start % 2 == 0 then start + 1 else start)
    ensures s % 2 == 1 && Odds(s, hi) == Odds(Max(start, 3), hi)
  {
    if start < 3 {
      assert s == 3;
    } else if start % 2 == 0 && start < hi {
      assert Odds(start, hi) == [] + Odds(start + 1, hi);
    }
  }

  // ---------------------------------------------------------------- per seed

  /** The record of one seed: step_hybrid until below the cache bound, then the cached
      length of where the walk stopped is added (entry 0 for an abandoned seed). */
  ghost function SeedOf(cache: seq<u16>, seed: u64): SeedStat
    requires |cache| > 0 && SettlesSome(seed, |cache|)
  {
    var k: nat :| Settles(seed, |cache|, k);
    var r := HybridWalk(ScalarLane(seed, 0, seed), |cache|, k);
    SeedStat(seed, Wrap32(r.steps + cache[r.n]), r.peak, r.n == 0)
  }

  ghost predicate AllSettle(seeds: seq<nat>, limit: nat)
  {
    forall j :: 0 <= j < |seeds| ==> seeds[j] < TWO64 && SettlesSome(seeds[j], limit)
  }

  lemma {:induction false} AllSettleSplit(a: seq<nat>, b: seq<nat>, limit: nat)
    ensures AllSettle(a + b, limit) <==> AllSettle(a, limit) && AllSettle(b, limit)
  {
    if AllSettle(a + b, limit) {
      assert forall j :: 0 <= j < |a| ==> a[j] == (a + b)[j];
      assert forall j :: 0 <= j < |b| ==> b[j] == (a + b)[|a| + j];
    }
  }

  ghost function SeedStats(cache: seq<u16>, seeds: seq<nat>): (r: seq<SeedStat>)
    requires |cache| > 0 && AllSettle(seeds, |cache|)
    ensures |r| == |seeds|
  {
    seq(|seeds|, j requires 0 <= j < |seeds| => SeedOf(cache, seeds[j]))
  }

  lemma {:induction false} SeedStatsAppend(cache: seq<u16>, a: seq<nat>, b: seq<nat>)
    requires |cache| > 0 && AllSettle(a, |cache|) && AllSettle(b, |cache|)
    ensures AllSettle(a + b, |cache|)
    ensures SeedStats(cache, a + b) == SeedStats(cache, a) + SeedStats(cache, b)
  {
  }

  /** The record of a seed from its final lane, whichever witness led there. */
  lemma {:induction false} SeedOfFinal(cache: seq<u16>, seed: u64, k: nat, r: ScalarLane)
    requires |cache| > 0 && Settles(seed, |cache|, k)
    requires r == HybridWalk(ScalarLane(seed, 0, seed), |cache|, k)
    ensures r.n < |cache|
    ensures SeedOf(cache, seed) == SeedStat(seed, Wrap32(r.steps + cache[r.n]), r.peak, r.n == 0)
  {
    var k': nat :| Settles(seed, |cache|, k') && SeedOf(cache, seed) ==
      var r' := HybridWalk(ScalarLane(seed, 0, seed), |cache|, k');
      SeedStat(seed, Wrap32(r'.steps + cache[r'.n]), r'.peak, r'.n == 0);
    HybridWalkWitness(ScalarLane(seed, 0, seed), |cache|, k, k');
  }

  // ---------------------------------------------------------------- lanes

  /** Lane x' with witness k' is lane x with witness k moved forward: it still settles,
      it ends where x ends, and it has no more walking ahead of it than x, strictly less
      if x was still at or above the bound. */
  ghost predicate Advanced(x': ScalarLane, k': nat, x: ScalarLane, k: nat, limit: nat)
  {
    && limit > 0
    && Settles(x.n, limit, k) && Settles(x'.n, limit, k')
    && HybridWalk(x', limit, k') == HybridWalk(x, limit, k)
    && Pending(x', limit, k') <= Pending(x, limit, k)
    && (x.n >= limit ==> Pending(x', limit, k') < Pending(x, limit, k))
  }

  /** One step of a lane advances it. */
  lemma {:induction false} StepKeepsWalk(x: ScalarLane, seed: u64, o: u64, limit: nat, k: nat)
    requires limit > 0 && Settles(x.n, limit, k)
    ensures Advanced(StepHybrid(x, seed, o, limit).0, if k == 0 then 0 else k - 1, x, k, limit)
  {
    StepSettles(x, seed, o, limit, k);
    StepLaneIndependent(x, seed, o, 0, 0, limit);
    if x.n < limit {
      HybridWalkWitness(x, limit, k, if k == 0 then 0 else k - 1);
    }
  }

  function Ns(lanes: seq<ScalarLane>): (r: seq<nat>)
    ensures |r| == |lanes| && forall j :: 0 <= j < |lanes| ==> r[j] == lanes[j].n
  {
    seq(|lanes|, j requires 0 <= j < |lanes| => lanes[j].n)
  }

  /** The remaining work of all lanes together; the lockstep loop lowers it. */
  function TotalPending(lanes: seq<ScalarLane>, ks: seq<nat>, limit: nat): nat
    requires |lanes| == |ks|
  {
    Sum(Pendings(lanes, ks, limit))
  }

  function Pendings(lanes: seq<ScalarLane>, ks: seq<nat>, limit: nat): (r: seq<nat>)
    requires |lanes| == |ks|
    ensures |r| == |lanes| && forall j :: 0 <= j < |r| ==> r[j] == Pending(lanes[j], limit, ks[j])
  {
    seq(|lanes|, j requires 0 <= j < |lanes| => Pending(lanes[j], limit, ks[j]))
  }

  /** A round that moves no lane back and some lane forward lowers the group's measure. */
  lemma {:induction false} TotalPendingLess(a: seq<ScalarLane>, ka: seq<nat>, b: seq<ScalarLane>, kb: seq<nat>, limit: nat, m: nat)
    requires |a| == |ka| == |b| == |kb| && m < |a|
    requires forall j :: 0 <= j < |a| ==> Pending(a[j], limit, ka[j]) <= Pending(b[j], limit, kb[j])
    requires Pending(a[m], limit, ka[m]) < Pending(b[m], limit, kb[m])
    ensures TotalPending(a, ka, limit) < TotalPending(b, kb, limit)
  {
    SumLess(Pendings(a, ka, limit), Pendings(b, kb, limit), m);
  }

  lemma {:induction false} SumLess(p: seq<nat>, q: seq<nat>, m: nat)
    requires |p| == |q| && m < |p|
    requires forall j :: 0 <= j < |p| ==> p[j] <= q[j]
    requires p[m] < q[m]
    ensures Sum(p) < Sum(q)
  {
    var n := |p| - 1;
    var p', q' := p[..n], q[..n];
    assert forall j :: 0 <= j < n ==> p'[j] == p[j] && q'[j] == q[j];
    if m < n {
      SumLess(p', q', m);
    } else {
      SumLe(p', q');
    }
  }

  lemma {:induction false} SumLe(p: seq<nat>, q: seq<nat>)
    requires |p| == |q|
    requires forall j :: 0 <= j < |p| ==> p[j] <= q[j]
    ensures Sum(p) <= Sum(q)
  {
    if |p| > 0 {
      var n := |p| - 1;
      var p', q' := p[..n], q[..n];
      assert forall j :: 0 <= j < n ==> p'[j] == p[j] && q'[j] == q[j];
      SumLe(p', q');
    }
  }

  lemma {:induction false} Witnesses(seeds: seq<nat>, limit: nat) returns (ks: seq<nat>)
    requires forall j :: 0 <= j < |seeds| ==> SettlesSome(seeds[j], limit)
    ensures |ks| == |seeds| && forall j :: 0 <= j < |seeds| ==> Settles(seeds[j], limit, ks[j])
  {
    if |seeds| == 0 {
      ks := [];
    } else {
      var rest := Witnesses(seeds[1..], limit);
      var k: nat :| Settles(seeds[0], limit, k);
      ks := [k] + rest;
      assert forall j :: 1 <= j < |seeds| ==> seeds[j] == seeds[1..][j - 1];
    }
  }

  /** The seeds and overflow flags of a set of lanes, for the overflow record. */
  function Flagged(seeds: seq<u64>, lanes: seq<ScalarLane>): (r: seq<SeedStat>)
    requires |seeds| == |lanes|
    ensures |r| == |seeds|
  {
    seq(|seeds|, j requires 0 <= j < |seeds| => SeedStat(seeds[j], 0, 0, lanes[j].n == 0))
  }

  // ---------------------------------------------------------------- the result

  /** A worker's ThreadResult: a fixed-size histogram and the running records. */
  class ThreadResult {
    var histogram: array<nat>
    var maxSeed: u64
    var maxPeak: u64
    var firstOverflow: u64
    var maxLength: u32

    ghost predicate Valid()
      reads this
    {
      histogram.Length == HIST_SIZE
    }

    ghost function Snapshot(): (st: Stats)
      reads this, histogram
    {
      Stats(histogram[..], Longest(maxLength, maxSeed), maxPeak, firstOverflow)
    }

    constructor ()
      ensures Valid() && fresh(histogram)
      ensures Snapshot() == InitStats()
    {
      histogram := new nat[HIST_SIZE](_ => 0);
      maxSeed, maxPeak, firstOverflow, maxLength := 0, 0, INT64_MAX, 0;
    }
  }

  // ---------------------------------------------------------------- the worker

  /** One round of the eight-way loop: step_hybrid on each lane in turn, all sharing the
      ThreadResult's overflow record. Every lane keeps where its walk ends, and every lane
      still at or above the bound gets one step closer to it. */
  method StepRound(res: ThreadResult, L: nat, seeds: seq<u64>, lanes: seq<ScalarLane>, ghost ks: seq<nat>, ghost o0: u64)
    returns (lanes': seq<ScalarLane>, ghost ks': seq<nat>)
    requires L > 0 && |seeds| == |lanes| == |ks|
    requires forall j :: 0 <= j < |lanes| ==> Settles(lanes[j].n, L, ks[j])
    requires res.firstOverflow == TallyOverflow(o0, Flagged(seeds, lanes))
    modifies res`firstOverflow
    ensures |lanes'| == |ks'| == |lanes|
    ensures forall j :: 0 <= j < |lanes| ==> Advanced(lanes'[j], ks'[j], lanes[j], ks[j], L)
    ensures res.firstOverflow == TallyOverflow(o0, Flagged(seeds, lanes'))
  {
    lanes', ks' := lanes, ks;
    var j := 0;
    while j < |lanes|
      invariant 0 <= j <= |lanes| && |lanes'| == |ks'| == |lanes|
      invariant res.firstOverflow == TallyOverflow(o0, Flagged(seeds, lanes'))
      invariant forall m :: 0 <= m < j ==> Advanced(lanes'[m], ks'[m], lanes[m], ks[m], L)
      invariant forall m :: j <= m < |lanes| ==> lanes'[m] == lanes[m] && ks'[m] == ks[m]
    {
      var (y, o) := StepHybrid(lanes'[j], seeds[j], res.firstOverflow, L);
      StepKeepsWalk(lanes'[j], seeds[j], res.firstOverflow, L, ks'[j]);
      ghost var flags := Flagged(seeds, lanes');
      if lanes'[j].n != 0 && y.n == 0 {
        TallyOverflowRaise(o0, flags, j);
        assert Flagged(seeds, lanes'[j := y]) == flags[j := flags[j].(overflowed := true)];
      } else {
        assert Flagged(seeds, lanes'[j := y]) == flags;
      }
      lanes' := lanes'[j := y];
      ks' := ks'[j := if ks'[j] == 0 then 0 else ks'[j] - 1];
      res.firstOverflow := o;
      j := j + 1;
    }
  }

  /** The lockstep walk of one group: `while ((n0|...|n7) >= CACHE_LIMIT)` one round. It
      ends with every lane where its own walk ends, and the overflow record lowered to the
      smallest abandoned seed of the group. */
  method WalkGroup(res: ThreadResult, L: nat, seeds: seq<u64>) returns (lanes: seq<ScalarLane>, ghost ks: seq<nat>)
    requires IsPow2(L) && |seeds| == 8
    requires forall j :: 0 <= j < 8 ==> seeds[j] >= 1 && SettlesSome(seeds[j], L)
    modifies res`firstOverflow
    ensures |lanes| == 8 && |ks| == 8
    ensures forall j :: 0 <= j < 8 ==> Settles(seeds[j], L, ks[j])
    ensures forall j :: 0 <= j < 8 ==> lanes[j] == HybridWalk(ScalarLane(seeds[j], 0, seeds[j]), L, ks[j])
    ensures res.firstOverflow == TallyOverflow(old(res.firstOverflow), Flagged(seeds, lanes))
  {
    lanes := seq(8, j requires 0 <= j < 8 => ScalarLane(seeds[j], 0, seeds[j]));
    ks := Witnesses(seeds, L);
    ghost var kk := ks;
    ghost var finals := seq(8, j requires 0 <= j < 8 => HybridWalk(lanes[j], L, ks[j]));
    ghost var o0 := res.firstOverflow;
    OverflowNone(o0, Flagged(seeds, lanes));

    while OrAll(Ns(lanes)) >= L
      invariant |lanes| == 8 && |kk| == 8
      invariant forall j :: 0 <= j < 8 ==> Settles(lanes[j].n, L, kk[j])
      invariant forall j :: 0 <= j < 8 ==> HybridWalk(lanes[j], L, kk[j]) == finals[j]
      invariant res.firstOverflow == TallyOverflow(o0, Flagged(seeds, lanes))
      decreases TotalPending(lanes, kk, L)
    {
      ghost var before, kBefore := lanes, kk;
      lanes, kk := StepRound(res, L, seeds, lanes, kk, o0);
      assert forall j :: 0 <= j < 8 ==> Advanced(lanes[j], kk[j], before[j], kBefore[j], L);
      OrAllBelowPow2(Ns(before), Log2(L));
      ghost var m :| 0 <= m < 8 && before[m].n >= L;
      TotalPendingLess(lanes, kk, before, kBefore, L, m);
    }

    OrAllBelowPow2(Ns(lanes), Log2(L));
    assert forall j :: 0 <= j < 8 ==> lanes[j].n < L && HybridWalk(lanes[j], L, kk[j]) == lanes[j];
  }

  /** One group of the eight-way loop: seeds i, i+2, ..., i+14 walk in lockstep; then each
      adds its cached tail, lands in the histogram and competes for the longest seed, and
      the greatest of the eight peaks competes for the peak record. */
  method RunGroup(res: ThreadResult, cache: array<u16>, i: u64)
    requires res.Valid() && IsPow2(cache.Length)
    requires i % 2 == 1 && i + 14 < TWO64
    requires AllSettle(Odds(i, i + 16), cache.Length)
    modifies res, res.histogram
    ensures res.Valid() && res.histogram == old(res.histogram)
    ensures res.Snapshot() == Tally(old(res.Snapshot()), SeedStats(cache[..], Odds(i, i + 16)))
  {
    OddsGroup(i);
    var seeds: seq<u64> := [i, i + 2, i + 4, i + 6, i + 8, i + 10, i + 12, i + 14];
    ghost var st0 := res.Snapshot();
    var lanes, ks := WalkGroup(res, cache.Length, seeds);

    ghost var ss := SeedStats(cache[..], seeds);
    GroupStats(cache[..], seeds, lanes, ks, st0.firstOverflow);
    ghost var o1 := res.firstOverflow;
    assert o1 == TallyOverflow(st0.firstOverflow, ss);
    RecordGroup(res, cache, seeds, lanes, ss);
    assert res.firstOverflow == o1;
    assert res.Snapshot() == Stats(TallyHist(st0.hist, ss), TallyLongest(st0.longest, ss),
                                   TallyPeak(st0.maxPeak, ss), TallyOverflow(st0.firstOverflow, ss));
  }

  /** The records of a group's seeds, read off the lanes where their walks ended. */
  lemma {:induction false} GroupStats(cache: seq<u16>, seeds: seq<u64>, lanes: seq<ScalarLane>, ks: seq<nat>, o: u64)
    requires |cache| > 0 && |seeds| == |lanes| == |ks| && AllSettle(seeds, |cache|)
    requires forall j :: 0 <= j < |seeds| ==> Settles(seeds[j], |cache|, ks[j])
    requires forall j :: 0 <= j < |seeds| ==> lanes[j] == HybridWalk(ScalarLane(seeds[j], 0, seeds[j]), |cache|, ks[j])
    ensures forall j :: 0 <= j < |seeds| ==> lanes[j].n < |cache|
    ensures forall j :: 0 <= j < |seeds| ==>
      SeedStats(cache, seeds)[j] == SeedStat(seeds[j], Wrap32(lanes[j].steps + cache[lanes[j].n]), lanes[j].peak, lanes[j].n == 0)
    ensures TallyOverflow(o, Flagged(seeds, lanes)) == TallyOverflow(o, SeedStats(cache, seeds))
  {
    var ss := SeedStats(cache, seeds);
    forall j | 0 <= j < |seeds|
      ensures lanes[j].n < |cache|
      ensures ss[j] == SeedStat(seeds[j], Wrap32(lanes[j].steps + cache[lanes[j].n]), lanes[j].peak, lanes[j].n == 0)
    {
      SeedOfFinal(cache, seeds[j], ks[j], lanes[j]);
    }
    TallyOverflowFlags(o, Flagged(seeds, lanes), ss);
  }

  /** The bookkeeping after the lockstep walk, in the source's order: the eight sums, the
      eight histogram increments, the eight longest-seed checks, then the peak. */
  method RecordGroup(res: ThreadResult, cache: array<u16>, seeds: seq<u64>, lanes: seq<ScalarLane>, ghost ss: seq<SeedStat>)
    requires res.Valid() && |seeds| == |lanes| == |ss| == 8
    requires forall j :: 0 <= j < 8 ==> lanes[j].n < cache.Length
    requires forall j :: 0 <= j < 8 ==>
      ss[j] == SeedStat(seeds[j], Wrap32(lanes[j].steps + cache[lanes[j].n]), lanes[j].peak, lanes[j].n == 0)
    modifies res`maxLength, res`maxSeed, res`maxPeak, res.histogram
    ensures res.histogram[..] == TallyHist(old(res.histogram[..]), ss)
    ensures Longest(res.maxLength, res.maxSeed) == TallyLongest(old(Longest(res.maxLength, res.maxSeed)), ss)
    ensures res.maxPeak == TallyPeak(old(res.maxPeak), ss)
  {
    var lens: seq<u32> := [];
    while |lens| < 8
      invariant |lens| <= 8
      invariant forall m :: 0 <= m < |lens| ==> lens[m] == ss[m].len
    {
      var m := |lens|;
      lens := lens + [Wrap32(lanes[m].steps + cache[lanes[m].n])];
    }

    ghost var h0 := res.histogram[..];
    var j := 0;
    while j < 8
      invariant 0 <= j <= 8
      invariant res.histogram[..] == TallyHist(h0, ss[..j])
      invariant res.maxPeak == old(res.maxPeak)
      invariant Longest(res.maxLength, res.maxSeed) == old(Longest(res.maxLength, res.maxSeed))
    {
      assert ss[..j + 1][..j] == ss[..j];
      var b := if lens[j] < HIST_SIZE then lens[j] else HIST_SIZE - 1;
      res.histogram[b] := res.histogram[b] + 1;
      j := j + 1;
    }
    assert ss[..8] == ss;

    ghost var l0 := Longest(res.maxLength, res.maxSeed);
    j := 0;
    while j < 8
      invariant 0 <= j <= 8
      invariant res.histogram[..] == TallyHist(h0, ss)
      invariant res.maxPeak == old(res.maxPeak)
      invariant Longest(res.maxLength, res.maxSeed) == TallyLongest(l0, ss[..j])
    {
      assert ss[..j + 1][..j] == ss[..j];
      if lens[j] > res.maxLength {
        res.maxLength := lens[j];
        res.maxSeed := seeds[j];
      }
      j := j + 1;
    }

    var localPeak: u64 := 0;
    j := 0;
    while j < 8
      invariant 0 <= j <= 8
      invariant res.histogram[..] == TallyHist(h0, ss)
      invariant Longest(res.maxLength, res.maxSeed) == TallyLongest(l0, ss)
      invariant res.maxPeak == old(res.maxPeak)
      invariant localPeak == TallyPeak(0, ss[..j])
    {
      assert ss[..j + 1][..j] == ss[..j];
      if lanes[j].peak > localPeak {
        localPeak := lanes[j].peak;
      }
      j := j + 1;
    }
    TallyPeakFrom(res.maxPeak, ss);
    if localPeak > res.maxPeak {
      res.maxPeak := localPeak;
    }
  }

  /** The walk of one seed in the remainder loop: step_hybrid until below the bound,
      leaving the loop at once when the stop value 0 appears. It ends where the seed's
      walk ends, with the overflow record lowered to the seed if it was abandoned. */
  method WalkSingle(res: ThreadResult, L: nat, i: u64) returns (x: ScalarLane)
    requires L > 0 && i >= 1 && SettlesSome(i, L)
    modifies res`firstOverflow
    ensures forall k: nat :: Settles(i, L, k) ==> x == HybridWalk(ScalarLane(i, 0, i), L, k)
    ensures res.firstOverflow == if x.n == 0 then Min(old(res.firstOverflow), i) else old(res.firstOverflow)
  {
    x := ScalarLane(i, 0, i);
    ghost var k: nat :| Settles(i, L, k);
    ghost var k0 := k;
    ghost var fin := HybridWalk(x, L, k);
    while x.n >= L
      invariant Settles(x.n, L, k) && HybridWalk(x, L, k) == fin
      invariant res.firstOverflow == if x.n == 0 then Min(old(res.firstOverflow), i) else old(res.firstOverflow)
      decreases Pending(x, L, k)
    {
      var (y, o) := StepHybrid(x, i, res.firstOverflow, L);
      StepKeepsWalk(x, i, res.firstOverflow, L, k);
      x, k := y, if k == 0 then 0 else k - 1;
      res.firstOverflow := o;
      if x.n == 0 {
        break;
      }
    }
    forall k': nat | Settles(i, L, k') ensures x == HybridWalk(ScalarLane(i, 0, i), L, k') {
      HybridWalkWitness(ScalarLane(i, 0, i), L, k0, k');
    }
  }

  /** One seed of the remainder loop: its walk, then the same bookkeeping as a group lane. */
  method RunSingle(res: ThreadResult, cache: array<u16>, i: u64)
    requires res.Valid() && cache.Length > 0
    requires i >= 1 && SettlesSome(i, cache.Length)
    modifies res, res.histogram
    ensures res.Valid() && res.histogram == old(res.histogram)
    ensures res.Snapshot() == Tally(old(res.Snapshot()), [SeedOf(cache[..], i)])
  {
    ghost var st0 := res.Snapshot();
    var x := WalkSingle(res, cache.Length, i);
    ghost var k: nat :| Settles(i, cache.Length, k);
    SeedOfFinal(cache[..], i, k, x);
    RecordSingle(res, cache, i, x);
    TallyOne(st0, SeedOf(cache[..], i));
  }

  /** The bookkeeping of one remainder seed: its cached tail, histogram slot, longest-seed
      check and peak. */
  method RecordSingle(res: ThreadResult, cache: array<u16>, i: u64, x: ScalarLane)
    requires res.Valid() && x.n < cache.Length
    modifies res`maxLength, res`maxSeed, res`maxPeak, res.histogram
    ensures var s := SeedStat(i, Wrap32(x.steps + cache[x.n]), x.peak, x.n == 0);
      && res.histogram[..] == old(res.histogram[..])[Bucket(s.len) := old(res.histogram[Bucket(s.len)]) + 1]
      && Longest(res.maxLength, res.maxSeed) == Beat(old(Longest(res.maxLength, res.maxSeed)), s)
      && res.maxPeak == Max(old(res.maxPeak), s.peak)
  {
    var s := Wrap32(x.steps + cache[x.n]);
    var b := if s < HIST_SIZE then s else HIST_SIZE - 1;
    res.histogram[b] := res.histogram[b] + 1;
    if s > res.maxLength {
      res.maxLength := s;
      res.maxSeed := i;
    }
    if x.peak > res.maxPeak {
      res.maxPeak := x.peak;
    }
  }

  /** The seeds a worker is responsible for: every odd seed of [start, end], and none
      below 3 (1 is its own trivial chain). */
  function WorkerSeeds(start: nat, end: nat): seq<nat>
  {
    Odds(Max(start, 3), end + 1)
  }

  /** Moving the boundary between done and pending seeds from i to j: the seeds of
      [first, j) are those of [first, i) followed by those of [i, j). */
  lemma {:induction false} ExtendSeeds(cache: seq<u16>, first: nat, i: nat, j: nat, hi: nat)
    requires |cache| > 0 && first <= i <= j <= hi
    requires AllSettle(Odds(first, i), |cache|) && AllSettle(Odds(i, hi), |cache|)
    ensures AllSettle(Odds(i, j), |cache|) && AllSettle(Odds(j, hi), |cache|)
    ensures AllSettle(Odds(first, j), |cache|)
    ensures Tally(InitStats(), SeedStats(cache, Odds(first, j)))
         == Tally(Tally(InitStats(), SeedStats(cache, Odds(first, i))), SeedStats(cache, Odds(i, j)))
  {
    OddsSplit(i, j, hi);
    AllSettleSplit(Odds(i, j), Odds(j, hi), |cache|);
    OddsSplit(first, i, j);
    AllSettleSplit(Odds(first, i), Odds(i, j), |cache|);
    SeedStatsAppend(cache, Odds(first, i), Odds(i, j));
    TallyAppend(InitStats(), SeedStats(cache, Odds(first, i)), SeedStats(cache, Odds(i, j)));
  }

  /** What a worker has done once it has reached seed i: every odd seed of [first, i)
      recorded in order, every odd seed of [i, hi) still to come. */
  ghost predicate WorkerAt(st: Stats, cache: seq<u16>, first: nat, i: nat, hi: nat)
  {
    && |cache| > 0
    && first <= i && i % 2 == 1 && (i == first || i <= hi)
    && (i <= hi ==> AllSettle(Odds(i, hi), |cache|))
    && AllSettle(Odds(first, i), |cache|)
    && st == Tally(InitStats(), SeedStats(cache, Odds(first, i)))
  }

  /** The eight-way loop of worker_static: groups while i + 14 <= end. */
  method GroupLoop(res: ThreadResult, cache: array<u16>, first: u64, end: u64, ghost hi: nat) returns (i: u64)
    requires IsPow2(cache.Length) && end + 16 < TWO64
    requires hi == (if end % 2 == 1 then end + 2 else end + 1)
    requires res.Valid() && WorkerAt(res.Snapshot(), cache[..], first, first, hi)
    modifies res, res.histogram
    ensures res.histogram == old(res.histogram)
    ensures res.Valid() && WorkerAt(res.Snapshot(), cache[..], first, i, hi) && end < i + 14
  {
    i := first;
    while i + 14 <= end
      invariant res.histogram == old(res.histogram)
      invariant res.Valid() && WorkerAt(res.Snapshot(), cache[..], first, i, hi)
    {
      ExtendGroup(res.Snapshot(), cache[..], first, i, hi);
      RunGroup(res, cache, i);
      i := i + 16;
    }
  }

  /** The remainder loop of worker_static: single seeds while i <= end. */
  method RemainderLoop(res: ThreadResult, cache: array<u16>, first: u64, i0: u64, end: u64, ghost hi: nat) returns (i: u64)
    requires cache.Length > 0 && end + 16 < TWO64
    requires hi == (if end % 2 == 1 then end + 2 else end + 1)
    requires res.Valid() && WorkerAt(res.Snapshot(), cache[..], first, i0, hi)
    modifies res, res.histogram
    ensures res.histogram == old(res.histogram)
    ensures res.Valid() && WorkerAt(res.Snapshot(), cache[..], first, i, hi) && end < i
  {
    i := i0;
    while i <= end
      invariant res.histogram == old(res.histogram)
      invariant res.Valid() && WorkerAt(res.Snapshot(), cache[..], first, i, hi)
    {
      ghost var st := res.Snapshot();
      ExtendOne(st, cache[..], first, i, hi);
      RunSingle(res, cache, i);
      assert res.Snapshot() == Tally(st, [SeedOf(cache[..], i)]);
      i := i + 2;
    }
  }

  /** worker_static: the ThreadResult of a worker is its seeds' records folded in
      increasing seed order, whatever mix of eight-way groups and single seeds computed
      them. */
  method WorkerStatic(cache: array<u16>, start: u64, end: u64) returns (res: ThreadResult)
    requires IsPow2(cache.Length) && end + 16 < TWO64
    requires AllSettle(WorkerSeeds(start, end), cache.Length)
    ensures fresh(res) && fresh(res.histogram) && res.Valid()
    ensures res.Snapshot() == Tally(InitStats(), SeedStats(cache[..], WorkerSeeds(start, end)))
  {
    res := new ThreadResult();
    var first := start;
    if first % 2 == 0 {
      first := first + 1;
    }
    if first <= 1 {
      first := 3;
    }
    ghost var hi := if end % 2 == 1 then end + 2 else end + 1;
    WorkerRange(cache[..], start, end, first, hi);
    var i := GroupLoop(res, cache, first, end, hi);
    i := RemainderLoop(res, cache, first, i, end, hi);
    WorkerDone(cache[..], start, end, first, i, hi);
  }

  /** One more seed for the remainder loop: the odd seed i moves from pending to done. */
  lemma {:induction false} ExtendOne(st: Stats, cache: seq<u16>, first: nat, i: nat, hi: nat)
    requires WorkerAt(st, cache, first, i, hi) && i + 2 <= hi
    ensures i < TWO64 && SettlesSome(i, |cache|) && |st.hist| == HIST_SIZE
    ensures WorkerAt(Tally(st, [SeedOf(cache, i)]), cache, first, i + 2, hi)
  {
    ExtendSeeds(cache, first, i, i + 2, hi);
    OneSeed(cache, i);
    assert Tally(st, SeedStats(cache, Odds(i, i + 2))) == Tally(InitStats(), SeedStats(cache, Odds(first, i + 2)));
  }

  /** The odd seeds of [i, i + 2) are i alone. */
  lemma {:induction false} OneSeed(cache: seq<u16>, i: nat)
    requires |cache| > 0 && i % 2 == 1 && AllSettle(Odds(i, i + 2), |cache|)
    ensures i < TWO64 && SettlesSome(i, |cache|)
    ensures SeedStats(cache, Odds(i, i + 2)) == [SeedOf(cache, i)]
  {
    OddsStep(i, i + 2);
    assert Odds(i, i + 2) == [i] by {
      assert Odds(i + 2, i + 2) == [];
    }
    assert Odds(i, i + 2)[0] == i;
  }

  /** One more group for the eight-way loop: the eight odd seeds from i move from pending
      to done. */
  lemma {:induction false} ExtendGroup(st: Stats, cache: seq<u16>, first: nat, i: nat, hi: nat)
    requires WorkerAt(st, cache, first, i, hi) && i + 16 <= hi
    ensures AllSettle(Odds(i, i + 16), |cache|)
    ensures WorkerAt(Tally(st, SeedStats(cache, Odds(i, i + 16))), cache, first, i + 16, hi)
  {
    ExtendSeeds(cache, first, i, i + 16, hi);
  }

  /** After start normalisation the worker's seeds are the odd numbers of [first, hi),
      with hi = end + 1 rounded up to even; nothing is recorded yet. */
  lemma {:induction false} WorkerRange(cache: seq<u16>, start: nat, end: nat, first: nat, hi: nat)
    requires |cache| > 0 && AllSettle(WorkerSeeds(start, end), |cache|)
    requires first == (if (if start % 2 == 0 then start + 1 else start) <= 1 then 3
                       else if start % 2 == 0 then start + 1 else start)
    requires hi == (if end % 2 == 1 then end + 2 else end + 1)
    ensures WorkerAt(InitStats(), cache, first, first, hi)
    ensures Odds(first, hi) == WorkerSeeds(start, end)
  {
    NormalizedStart(start, first, end + 1);
    if end % 2 == 1 && first <= end + 1 {
      OddsSplit(first, end + 1, end + 2);
      assert Odds(end + 1, end + 2) == [];
    }
    assert Odds(first, first) == [];
    assert first > hi ==> Odds(first, hi) == [] && Odds(first, end + 1) == [];
  }

  /** Once past end, the worker has recorded exactly its seeds. */
  lemma {:induction false} WorkerDone(cache: seq<u16>, start: nat, end: nat, first: nat, i: nat, hi: nat)
    requires first <= i && i % 2 == 1 && (i == first || i <= hi) && end < i
    requires hi == (if end % 2 == 1 then end + 2 else end + 1)
    requires Odds(first, hi) == WorkerSeeds(start, end)
    ensures Odds(first, i) == WorkerSeeds(start, end)
  {
    if first > hi {
      assert i == first;
      assert Odds(first, i) == [];
    }
  }

  lemma {:induction false} OverflowNone(o: u64, ss: seq<SeedStat>)
    requires forall j :: 0 <= j < |ss| ==> !ss[j].overflowed
    ensures TallyOverflow(o, ss) == o
  {
    if |ss| > 0 {
      OverflowNone(o, ss[..|ss| - 1]);
    }
  }

  lemma {:induction false} LengthSum(steps: nat, c: nat, K: nat, rest: nat)
    requires rest <= K < TWO16 && steps == Wrap32(0 + (K - rest)) && c == rest % TWO16
    ensures Wrap32(steps + c) == K
  {
    WrapSteps(0, K - rest, rest);
  }

  /** Given a correct cache, the length the scalar engine records for a seed that is not
      abandoned is its Collatz chain length, as long as that length fits the 16-bit cache
      entries. */
  lemma {:induction false} ScalarSeedLength(cache: seq<u16>, seed: u64, K: nat)
    requires CacheCorrect(cache) && Chain(seed, K) && K < TWO16
    requires seed % 2 == 1 || seed < |cache|
    requires SettlesSome(seed, |cache|) && !SeedOf(cache, seed).overflowed
    ensures SeedOf(cache, seed).len == K
  {
    var k: nat :| Settles(seed, |cache|, k);
    var r := HybridWalk(ScalarLane(seed, 0, seed), |cache|, k);
    SeedOfFinal(cache, seed, k, r);
    var st := SeedOf(cache, seed);
    assert st.len == Wrap32(r.steps + cache[r.n]) && (st.overflowed <==> r.n == 0);
    var rest := HybridWalkChain(ScalarLane(seed, 0, seed), |cache|, k, K);
    assert r.steps == Wrap32(0 + (K - rest)) && Chain(r.n, rest);
    CacheEntry(cache, r.n, rest);
    LengthSum(r.steps, cache[r.n], K, rest);
  }
}
