/** One lane of the vector engine (lib/collatz_simd.cpp): its registers, the branchless
    lane step of STEP_NEON and STEP_AVX, the lockstep walk of a sixteen-seed group in
    vectors of two (NEON) or four (AVX2) lanes, and the walk that finalize finishes. */
module SimdLane {
  import opened Words
  import opened Collatz
  import opened Bits
  import ScalarStep
  import ScalarStats
  import Cache

  /** (INT64_MAX - 1) / 3: an odd value above it has 3n+1 beyond INT64_MAX. */
  const OVERFLOW_THRESHOLD: nat := 3074457345618258602

  /** The vector engine's threshold is the scalar engine's SAFE_THRESHOLD, and it is exact:
      an odd lane above it is exactly one whose 3n+1 passes INT64_MAX. */
  lemma {:induction false} OverflowThresholdExact(v: nat)
    ensures OVERFLOW_THRESHOLD == (INT64_MAX - 1) / 3 == ScalarStep.SAFE_THRESHOLD
    ensures 3 * OVERFLOW_THRESHOLD + 1 == INT64_MAX
    ensures v > OVERFLOW_THRESHOLD <==> 3 * v + 1 > INT64_MAX
  {
  }

  /** The two instruction sets: NEON vectors hold two 64-bit lanes, AVX2 vectors four. */
  datatype Platform = Arm | X86

  function Width(pf: Platform): (w: nat)
    ensures w == 2 || w == 4
  {
    if pf == Arm then 2 else 4
  }

  /** The registers of one lane: V (value), S (steps), P (peak), M (still walking) and its
      bit of the sticky overflow mask. */
  datatype Lane = Lane(v: u64, s: u64, p: u64, m: bool, ovf: bool)

  /** A seed as loaded: V = P = seed, S = 0, M = seed > CACHE_LIMIT, overflow clear. */
  function Load(seed: u64, L: u64): Lane
  {
    Lane(seed, 0, seed, seed > L, false)
  }

  /** The meaning of one lane step. An idle lane keeps V, S, P and its overflow bit and
      has its mask recomputed. A walking lane raises P to V, then goes to V >> 1 counting
      one step when V is even, or to V + (V >> 1) + 1 (wrapping) counting two when V is
      odd, raising its overflow bit if that odd V is above OVERFLOW_THRESHOLD; its mask
      becomes V > CACHE_LIMIT. */
  function LaneStep(x: Lane, L: u64): Lane
  {
    if !x.m then x.(m := x.v > L)
    else
      var odd := x.v % 2 == 1;
      var next := if odd then Wrap64(x.v + x.v / 2 + 1) else x.v / 2;
      Lane(next, Wrap64(x.s + if odd then 2 else 1), Max(x.p, x.v), next > L,
           x.ovf || (odd && x.v > OVERFLOW_THRESHOLD))
  }

  /** STEP_NEON on one lane of a vector that has a walking lane, intrinsic by intrinsic:
      masks from vcgtq_u64 and vtstq_u64, blends by vbslq_u64, wrapping vaddq_u64. */
  function StepNeon(x: Lane, L: u64): Lane
  {
    var M := Mask(x.m);
    var newPeak := AndMasks(Mask(x.v > x.p), M);
    var P := Bsl(newPeak, x.v, x.p);
    var isOdd := TestLow(x.v);
    var vEven := x.v / 2;
    var vOdd := Wrap64(Wrap64(x.v + vEven) + 1);
    var isOvf := AndMasks(isOdd, Mask(x.v > OVERFLOW_THRESHOLD));
    var ovf := OrMasks(Mask(x.ovf), AndMasks(isOvf, M));
    var next := Bsl(isOdd, vOdd, vEven);
    var inc := Bsl(isOdd, 2, 1);
    var V := Bsl(M, next, x.v);
    var S := Wrap64(x.s + KeepIf(inc, M));
    Lane(V, S, P, V > L, ovf != 0)
  }

  /** STEP_AVX on one lane of a vector that has a walking lane: unsigned comparisons by
      cmpgt_u64, oddness by the shift pair, blends by _mm256_blendv_epi8. */
  function StepAvx(x: Lane, L: u64): Lane
  {
    var M := Mask(x.m);
    var upd := AndMasks(CmpGtU64(x.v, x.p), M);
    var P := Blendv(x.p, x.v, upd);
    var vEven := x.v / 2;
    var vOdd := Wrap64(Wrap64(x.v + vEven) + 1);
    var isOdd := OddMask(x.v);
    var isOvfMask := AndMasks(isOdd, CmpGtU64(x.v, OVERFLOW_THRESHOLD));
    var ovf := OrMasks(Mask(x.ovf), AndMasks(isOvfMask, M));
    var next := Blendv(vEven, vOdd, isOdd);
    var inc := Blendv(1, 2, isOdd);
    var V := Blendv(x.v, next, M);
    var S := Wrap64(x.s + KeepIf(inc, M));
    Lane(V, S, P, CmpGtU64(V, L) != 0, ovf != 0)
  }

  function PlatformStep(pf: Platform, x: Lane, L: u64): Lane
  {
    if pf == Arm then StepNeon(x, L) else StepAvx(x, L)
  }

  /** Both instruction sequences compute the lane step, on walking and idle lanes alike. */
  lemma {:induction false} StepAsWritten(x: Lane, L: u64)
    ensures StepNeon(x, L) == LaneStep(x, L)
    ensures StepAvx(x, L) == LaneStep(x, L)
  {
    NeonAgrees(x, L);
    AvxAgrees(x, L);
  }

  lemma {:induction false} NeonAgrees(x: Lane, L: u64)
    ensures StepNeon(x, L) == LaneStep(x, L)
  {
    NeonValue(x, L);
    NeonSteps(x, L);
    NeonPeak(x, L);
    NeonOverflow(x, L);
  }

  lemma {:induction false} NeonValue(x: Lane, L: u64)
    ensures StepNeon(x, L).v == LaneStep(x, L).v
  {
    if x.m {
      AddMod(x.v + x.v / 2, 1, TWO64);
    }
  }

  lemma {:induction false} NeonSteps(x: Lane, L: u64)
    ensures StepNeon(x, L).s == LaneStep(x, L).s
  {
    if x.m {
      assert StepNeon(x, L).s == Wrap64(x.s + if x.v % 2 == 1 then 2 else 1);
    } else {
      assert StepNeon(x, L).s == Wrap64(x.s + 0);
    }
  }

  lemma {:induction false} NeonPeak(x: Lane, L: u64)
    ensures StepNeon(x, L).p == LaneStep(x, L).p
  {
  }

  lemma {:induction false} NeonOverflow(x: Lane, L: u64)
    ensures StepNeon(x, L).ovf == LaneStep(x, L).ovf
  {
  }

  lemma {:induction false} AvxAgrees(x: Lane, L: u64)
    ensures StepAvx(x, L) == LaneStep(x, L)
  {
    AvxValue(x, L);
    AvxSteps(x, L);
    AvxPeak(x, L);
    AvxOverflow(x, L);
  }

  lemma {:induction false} AvxValue(x: Lane, L: u64)
    ensures StepAvx(x, L).v == LaneStep(x, L).v
  {
    if x.m {
      AddMod(x.v + x.v / 2, 1, TWO64);
    }
  }

  lemma {:induction false} AvxSteps(x: Lane, L: u64)
    ensures StepAvx(x, L).s == LaneStep(x, L).s
  {
    if x.m {
      assert StepAvx(x, L).s == Wrap64(x.s + if x.v % 2 == 1 then 2 else 1);
    } else {
      assert StepAvx(x, L).s == Wrap64(x.s + 0);
    }
  }

  lemma {:induction false} AvxPeak(x: Lane, L: u64)
    ensures StepAvx(x, L).p == LaneStep(x, L).p
  {
  }

  lemma {:induction false} AvxOverflow(x: Lane, L: u64)
    ensures StepAvx(x, L).ovf == LaneStep(x, L).ovf
  {
  }

  /** The lane step itself: a walking odd lane below the threshold moves to (3V+1)/2 with
      no wrap-around, an even one to V/2; the peak is the larger of P and V; the overflow
      bit, once set, stays set, and it is set by an odd V exactly when 3V+1 passes
      INT64_MAX; after any step the mask says whether V is above CACHE_LIMIT. */
  lemma {:induction false} LaneStepMeaning(x: Lane, L: u64)
    ensures var y := LaneStep(x, L);
      && y.m == (y.v > L)
      && (x.ovf ==> y.ovf)
      && (x.m && x.v % 2 == 1 && x.v <= OVERFLOW_THRESHOLD ==> y.v == (3 * x.v + 1) / 2)
      && (x.m && x.v % 2 == 0 ==> y.v == x.v / 2)
      && (x.m ==> y.p == Max(x.p, x.v))
      && (x.m ==> (y.ovf <==> x.ovf || (x.v % 2 == 1 && 3 * x.v + 1 > INT64_MAX)))
      && (!x.m && x.m == (x.v > L) ==> y == x)
  {
    OverflowThresholdExact(x.v);
  }

  // ---------------------------------------------------------------- lockstep walk

  /** Mask and value agree: the lane is walking exactly while V > CACHE_LIMIT. */
  predicate Synced(x: Lane, L: u64)
  {
    x.m == (x.v > L)
  }

  /** The walk of a lane ends within k steps: its mask clears after at most k steps. This
      is what the source's `while (1)` relies on to terminate. */
  ghost predicate LaneSettles(x: Lane, L: u64, k: nat)
    decreases k
  {
    !x.m || (k > 0 && LaneSettles(LaneStep(x, L), L, k - 1))
  }

  ghost predicate LaneSettlesSome(x: Lane, L: u64)
  {
    exists k: nat :: LaneSettles(x, L, k)
  }

  /** Where a lane's walk ends: the first lane state whose mask is clear. */
  function LaneRun(x: Lane, L: u64, k: nat): (r: Lane)
    requires Synced(x, L) && LaneSettles(x, L, k)
    ensures Synced(r, L) && r.v <= L
    decreases k
  {
    if !x.m then x else LaneRun(LaneStep(x, L), L, k - 1)
  }

  /** The end of a lane's walk does not depend on the termination witness. */
  lemma {:induction false} LaneRunWitness(x: Lane, L: u64, k1: nat, k2: nat)
    requires Synced(x, L) && LaneSettles(x, L, k1) && LaneSettles(x, L, k2)
    ensures LaneRun(x, L, k1) == LaneRun(x, L, k2)
    decreases k1
  {
    if x.m {
      LaneRunWitness(LaneStep(x, L), L, k1 - 1, k2 - 1);
    }
  }

  /** Some lane of a vector is walking: the guard of STEP_NEON and STEP_AVX, and over all
      sixteen lanes the condition that keeps `while (1)` going. */
  predicate AnyActive(lanes: seq<Lane>)
  {
    exists j :: 0 <= j < |lanes| && lanes[j].m
  }

  /** STEP_NEON or STEP_AVX on the vector of lanes [base, base + w): every lane of it
      takes its own lane step, whatever the other lanes are doing. */
  method StepVector(pf: Platform, lanes: seq<Lane>, base: nat, L: u64) returns (lanes': seq<Lane>)
    requires base + Width(pf) <= |lanes|
    ensures |lanes'| == |lanes|
    ensures forall j :: base <= j < base + Width(pf) ==> lanes'[j] == LaneStep(lanes[j], L)
    ensures forall j :: 0 <= j < |lanes| && !(base <= j < base + Width(pf)) ==> lanes'[j] == lanes[j]
  {
    var w := Width(pf);
    lanes' := lanes;
    var l := 0;
    while l < w
      invariant 0 <= l <= w && |lanes'| == |lanes|
      invariant forall j :: base <= j < base + l ==> lanes'[j] == LaneStep(lanes[j], L)
      invariant forall j :: 0 <= j < |lanes| && !(base <= j < base + l) ==> lanes'[j] == lanes[j]
    {
      StepAsWritten(lanes'[base + l], L);
      lanes' := lanes'[base + l := PlatformStep(pf, lanes'[base + l], L)];
      l := l + 1;
    }
  }

  /** One pass of `while (1)`: each vector, in order, steps all its lanes (walking or not)
      if it has a walking lane, and is left alone otherwise. Every lane takes exactly its
      own lane step, so the grouping into vectors does not matter. */
  method StepVectors(pf: Platform, lanes: seq<Lane>, L: u64) returns (lanes': seq<Lane>)
    requires |lanes| == 16 && forall j :: 0 <= j < 16 ==> Synced(lanes[j], L)
    ensures |lanes'| == 16
    ensures forall j :: 0 <= j < 16 ==> lanes'[j] == LaneStep(lanes[j], L)
  {
    var w := Width(pf);
    lanes' := lanes;
    var base := 0;
    while base < 16
      invariant 0 <= base <= 16 && base % w == 0 && |lanes'| == 16
      invariant forall j :: 0 <= j < base ==> lanes'[j] == LaneStep(lanes[j], L)
      invariant forall j :: base <= j < 16 ==> lanes'[j] == lanes[j]
    {
      if AnyActive(lanes'[base..base + w]) {
        lanes' := StepVector(pf, lanes', base, L);
      } else {
        // every lane of the vector is idle, and an idle lane's step leaves it as it is
        forall j | base <= j < base + w
          ensures LaneStep(lanes[j], L) == lanes[j]
        {
          assert lanes[j] == lanes'[base..base + w][j - base];
        }
      }
      base := base + w;
    }
  }

  /** The witnesses after one pass: one step fewer for each walking lane. */
  ghost function NextWitnesses(lanes: seq<Lane>, ks: seq<nat>): seq<nat>
    requires |lanes| == |ks| && forall j :: 0 <= j < |ks| ==> lanes[j].m ==> ks[j] > 0
  {
    seq(|ks|, j requires 0 <= j < |ks| => if lanes[j].m then ks[j] - 1 else ks[j])
  }

  /** Lowering the witness of each walking lane lowers their sum, strictly when some lane
      walks: the measure of the `while (1)` loop. */
  lemma {:induction false} WitnessesDecrease(lanes: seq<Lane>, ks: seq<nat>, r: seq<nat>)
    requires |lanes| == |ks| == |r|
    requires forall j :: 0 <= j < |ks| ==> r[j] + (if lanes[j].m then 1 else 0) == ks[j]
    ensures ScalarStats.Sum(r) <= ScalarStats.Sum(ks)
    ensures AnyActive(lanes) ==> ScalarStats.Sum(r) < ScalarStats.Sum(ks)
    decreases |ks|
  {
    if |ks| > 0 {
      var n := |ks| - 1;
      WitnessesDecrease(lanes[..n], ks[..n], r[..n]);
      if AnyActive(lanes) && !lanes[n].m {
        var j :| 0 <= j < |lanes| && lanes[j].m;
        assert lanes[..n][j].m;
      }
    }
  }

  /** The whole `while (1)` of a group: passes until no lane walks. Each lane ends where
      its own walk ends, whatever the vector width. The ghost witnesses bound each walk;
      their sum goes down on every pass. */
  method WalkVectors(pf: Platform, lanes: seq<Lane>, L: u64, ghost ks: seq<nat>) returns (out: seq<Lane>)
    requires |lanes| == |ks| == 16
    requires forall j :: 0 <= j < 16 ==> Synced(lanes[j], L) && LaneSettles(lanes[j], L, ks[j])
    ensures |out| == 16
    ensures forall j :: 0 <= j < 16 ==> out[j] == LaneRun(lanes[j], L, ks[j])
  {
    out := lanes;
    ghost var ks' := ks;
    while AnyActive(out)
      invariant |out| == |ks'| == 16
      invariant forall j :: 0 <= j < 16 ==> Synced(out[j], L) && LaneSettles(out[j], L, ks'[j])
      invariant forall j :: 0 <= j < 16 ==> LaneRun(out[j], L, ks'[j]) == LaneRun(lanes[j], L, ks[j])
      decreases ScalarStats.Sum(ks')
    {
      var prev := out;
      ghost var kprev := ks';
      out := StepVectors(pf, out, L);
      ks' := NextWitnesses(prev, kprev);
      WitnessesDecrease(prev, kprev, ks');
      forall j | 0 <= j < 16
        ensures Synced(out[j], L) && LaneSettles(out[j], L, ks'[j])
        ensures LaneRun(out[j], L, ks'[j]) == LaneRun(prev[j], L, kprev[j])
      {
        LaneStepMeaning(prev[j], L);
      }
    }
    forall j | 0 <= j < 16
      ensures out[j] == LaneRun(lanes[j], L, ks[j])
    {
      assert !out[j].m;
    }
  }

  /** The overflow bit is sticky: once set, it is set at the end of the walk. */
  lemma {:induction false} LaneRunSticky(x: Lane, L: u64, k: nat)
    requires Synced(x, L) && LaneSettles(x, L, k) && x.ovf
    ensures LaneRun(x, L, k).ovf
    decreases k
  {
    if x.m {
      LaneRunSticky(LaneStep(x, L), L, k - 1);
    }
  }

  /** A walking lane on an even value halves it and counts one step. */
  lemma {:induction false} EvenLaneStep(x: Lane, L: u64)
    requires x.m && x.v % 2 == 0 && x.s + 1 < TWO64
    ensures LaneStep(x, L).v == x.v / 2 && LaneStep(x, L).s == x.s + 1
    ensures LaneStep(x, L).ovf == x.ovf
  {
  }

  /** A walking lane on an odd value whose 3V+1 fits in 64 bits takes (3V+1)/2 exactly
      and counts two steps. */
  lemma {:induction false} OddLaneStep(x: Lane, L: u64)
    requires x.m && x.v % 2 == 1 && 3 * x.v + 1 < TWO64 && x.s + 2 < TWO64
    ensures LaneStep(x, L).v == (3 * x.v + 1) / 2 && LaneStep(x, L).s == x.s + 2
    ensures LaneStep(x, L).ovf == (x.ovf || x.v > OVERFLOW_THRESHOLD)
  {
    assert x.v + x.v / 2 + 1 == (3 * x.v + 1) / 2;
  }

  /** On a seed whose trajectory stays in 64-bit range, a lane walks the Collatz chain
      exactly: odd values take the combined step (3V+1)/2 without wrapping, and S counts
      the Collatz steps taken so far. */
  lemma {:induction false} LaneRunChain(x: Lane, L: u64, k: nat, K: nat) returns (rest: nat)
    requires L >= 2 && Synced(x, L) && LaneSettles(x, L, k)
    requires Chain(x.v, K) && x.s + K < TWO64
    ensures rest <= K && Chain(LaneRun(x, L, k).v, rest)
    ensures LaneRun(x, L, k).s == x.s + (K - rest)
    decreases k
  {
    if !x.m {
      return K;
    }
    var y := LaneStep(x, L);
    if x.v % 2 == 0 {
      ChainHalve(x.v, K);
      EvenLaneStep(x, L);
      rest := LaneRunChain(y, L, k - 1, K - 1);
    } else {
      ChainOddStep(x.v, K);
      OddLaneStep(x, L);
      rest := LaneRunChain(y, L, k - 1, K - 2);
    }
  }

  // ---------------------------------------------------------------- finalize

  /** What finalize's `while (n >= CACHE_LIMIT)` does to a lane that has stopped: a value
      of exactly CACHE_LIMIT (a power of two, so even) is halved once, counting a step and
      raising the peak to it; a value below the limit is left as it is. */
  function Drain(x: Lane, L: u64): (r: Lane)
    requires 2 <= L && L % 2 == 0 && x.v <= L
    ensures r.v < L
  {
    if x.v == L then x.(v := L / 2, s := Wrap64(x.s + 1), p := Max(x.p, L)) else x
  }

  /** The chain length finalize reports for a lane: its steps plus the cached length of
      the value it ends on. */
  function FinishSteps(x: Lane, L: u64, cache: seq<u16>): u64
    requires 2 <= L && L % 2 == 0 && x.v <= L && |cache| == L
  {
    var y := Drain(x, L);
    Wrap64(y.s + cache[y.v])
  }

  /** finalize on one lane: drain it below CACHE_LIMIT, then add the cache entry. The odd
      branch of the loop is dead, since only CACHE_LIMIT itself reaches the loop. */
  method FinishLane(x: Lane, L: u64, cache: seq<u16>) returns (steps: u64, peak: u64)
    requires 2 <= L && L % 2 == 0 && x.v <= L && |cache| == L
    ensures steps == FinishSteps(x, L, cache) && peak == Drain(x, L).p
  {
    var n: u64, s: u64, p: u64 := x.v, x.s, x.p;
    while n >= L
      invariant n <= L
      invariant n == L ==> n == x.v && s == x.s && p == x.p
      invariant n < L ==> Lane(n, s, p, x.m, x.ovf) == Drain(x, L)
      decreases n
    {
      if n > p {
        p := n;
      }
      if n % 2 == 1 {
        assert false;
      } else {
        n := n / 2;
        s := Wrap64(s + 1);
      }
    }
    steps := Wrap64(s + cache[n]);
    peak := p;
  }

  /** A lane that starts from a seed with chain length K below 2^16 reports exactly K:
      the walk, the drain and the cache entry add up to the chain length. */
  lemma {:induction false} FinishLength(seed: u64, L: u64, cache: seq<u16>, k: nat, K: nat)
    requires 2 <= L && L % 2 == 0 && |cache| == L && Cache.CacheCorrect(cache)
    requires LaneSettles(Load(seed, L), L, k) && Chain(seed, K) && K < TWO16
    ensures FinishSteps(LaneRun(Load(seed, L), L, k), L, cache) == K
  {
    var rest := LaneRunChain(Load(seed, L), L, k, K);
    FinishFrom(LaneRun(Load(seed, L), L, k), L, cache, rest);
  }

  /** A stopped lane r whose value has chain length rest reports its steps plus rest. */
  lemma {:induction false} FinishFrom(r: Lane, L: u64, cache: seq<u16>, rest: nat)
    requires 2 <= L && L % 2 == 0 && |cache| == L && Cache.CacheCorrect(cache)
    requires r.v <= L && Chain(r.v, rest) && r.s + rest < TWO16
    ensures FinishSteps(r, L, cache) == r.s + rest
  {
    if r.v == L {
      ChainHalve(r.v, rest);
      Cache.CacheEntry(cache, L / 2, rest - 1);
    } else {
      Cache.CacheEntry(cache, r.v, rest);
    }
  }

  // ---------------------------------------------------------------- rescan

  /** One step of the rescan loop, in 64-bit arithmetic: halve an even value, (3n+1) >> 1
      for an odd one. */
  function RescanNext(n: u64): u64
  {
    if n % 2 == 0 then n / 2 else Wrap64(3 * n + 1) / 2
  }

  /** The rescan of a seed stops within k steps: it falls below CACHE_LIMIT or meets an
      odd value above OVERFLOW_THRESHOLD. */
  ghost predicate RescanSettles(n: u64, L: u64, k: nat)
    decreases k
  {
    n < L || (n % 2 == 1 && n > OVERFLOW_THRESHOLD) || (k > 0 && RescanSettles(RescanNext(n), L, k - 1))
  }

  /** The rescan breaks on an odd value above OVERFLOW_THRESHOLD before falling below
      CACHE_LIMIT. */
  function RescanHit(n: u64, L: u64, k: nat): bool
    requires RescanSettles(n, L, k)
    decreases k
  {
    if n < L then false
    else if n % 2 == 1 && n > OVERFLOW_THRESHOLD then true
    else RescanHit(RescanNext(n), L, k - 1)
  }

  /** The rescan loop for one seed of a group whose overflow mask was set. */
  method RescanSeed(seed: u64, L: u64, ghost k: nat) returns (hit: bool)
    requires RescanSettles(seed, L, k)
    ensures hit == RescanHit(seed, L, k)
  {
    var n: u64 := seed;
    ghost var j := k;
    hit := false;
    while n >= L
      invariant RescanSettles(n, L, j) && RescanHit(n, L, j) == RescanHit(seed, L, k) && !hit
      decreases j
    {
      if n % 2 == 0 {
        n := n / 2;
      } else {
        if n > OVERFLOW_THRESHOLD {
          hit := true;
          break;
        }
        n := Wrap64(n * 3 + 1) / 2;
      }
      j := j - 1;
    }
  }

  /** The rescan finds exactly the lanes whose overflow bit the vector walk set: both
      follow the same values until an odd value above the threshold, the rescan breaks
      there and the lane's bit stays set to the end. The rescan ends within one step more
      than the lane, as it also halves a value of exactly CACHE_LIMIT. */
  lemma {:induction false} RescanMatchesLane(x: Lane, L: u64, k: nat)
    requires 2 <= L && L % 2 == 0 && Synced(x, L) && LaneSettles(x, L, k)
    ensures RescanSettles(x.v, L, k + 1)
    ensures LaneRun(x, L, k).ovf == (x.ovf || RescanHit(x.v, L, k + 1))
    decreases k
  {
    if !x.m {
      if x.v == L {
        assert RescanNext(x.v) < L;
      }
    } else if x.v % 2 == 1 && x.v > OVERFLOW_THRESHOLD {
      LaneRunSticky(LaneStep(x, L), L, k - 1);
    } else {
      StepFollowsRescan(x, L);
      RescanMatchesLane(LaneStep(x, L), L, k - 1);
    }
  }

  /** Below the threshold a walking lane moves to the rescan's next value and keeps its
      overflow bit. */
  lemma {:induction false} StepFollowsRescan(x: Lane, L: u64)
    requires x.m && !(x.v % 2 == 1 && x.v > OVERFLOW_THRESHOLD)
    ensures LaneStep(x, L).v == RescanNext(x.v) && LaneStep(x, L).ovf == x.ovf
  {
    if x.v % 2 == 1 {
      assert x.v + x.v / 2 + 1 == (3 * x.v + 1) / 2;
      assert 3 * x.v + 1 < TWO64;
    }
  }
}
