# Collatz engine — a verified Dafny model

This project models the computation core of a Collatz explorer. It has two engines.

- **The scalar hybrid engine** (`lib/collatz.cpp`):
  - `build_cache_parallel` fills a table of chain lengths for every value below `CACHE_LIMIT`, phase by phase.
  - `worker_static` walks the odd seeds of a range eight at a time with `step_hybrid`:
    - each step is one `3n+1` with all trailing zeros shifted out;
    - an exact 128-bit overflow test guards each step;
    - each walk finishes by adding the cached length;
    - the worker records a histogram of lengths, the longest chain, the greatest peak and the first seed that overflows.
  - `collatz_compute` resets the global records, splits `[1, limit]` among the workers, merges each worker's results (max, min, a strict-longer test, a histogram map) and assembles the result record.
- **The vector engine** (`lib/collatz_simd.cpp`):
  - `build_cache` fills the same table one index at a time.
  - `worker_simd` walks sixteen odd seeds in lockstep: eight NEON vectors of two lanes, or four AVX2 vectors of four.
    - The lane step is branchless; the masks come from the lane-wise intrinsics.
    - Each lane is then finished against the cache.
    - Overflowed seeds are found by a scalar rescan (ARM) or read off the lane masks (x86).
    - Leftover seeds go through a scalar cleanup walk.
  - `collatz_compute_simd` resets the globals, splits `[1, limit)` among the workers and reports.

## How the model is built

- Integers are naturals with explicit widths: `u16`, `u32` and `u64` subset types. Every place the source wraps (`uint16_t` cache sums, `uint32_t` step counters, 64-bit lane arithmetic) is written with `%`.
- Collatz walks cannot be proved to terminate. Each walk loop therefore carries a ghost witness: a predicate saying the walk, as the source computes it, ends within `k` steps. Operations require that such a witness exists for the seeds they are given, and loops decrease the witness.
- The mathematical reference is `Collatz.Chain(n, k)`: the walk from `n` first reaches 1 after exactly `k` steps (an odd step `(3n+1)/2` counts as two), and every value on the way stays below 2^64.
  - The cache builders are proved to store `k mod 2^16` at every index.
  - Both engines' per-seed lengths are proved equal to `k` when no overflow occurs and `k < 2^16`.
- The workers are proved against specification functions over the seed sequence:
  - scalar: a left fold `ScalarStats.Tally` over per-seed records;
  - vector: `SimdStats.Fold`.
  - Lemmas then state what the folds mean: the first strictly longest seed, the greatest peak, the smallest overflowing seed, and the bucket counts.
- Threads run one after the other, in thread order. A compare-and-swap loop is modelled as its effect: max, min, or "replace when strictly longer".
- `CACHE_LIMIT`, the phase size and the hardware concurrency are parameters. The engine's power-of-two cache limit is an `IsPow2` requirement.

## Model

| member | source | states |
|---|---|---|
| Words.CtzOddPart | lib/collatz.cpp:76-96 | for n > 0, shifting out fast_ctz(n) zeros leaves an odd number whose product with 2^ctz is n |
| Words.CtzOfZero | lib/collatz.cpp:77 | fast_ctz(0) is 0 |
| Words.ShrBounded | lib/collatz.cpp:168 | a right shift never grows the value, and strictly shrinks a positive value when the shift is positive |
| Words.BitOrBelowPow2 | lib/collatz.cpp:217 | for a power-of-two bound, a \| b is below it iff both a and b are |
| Words.OrAllBelowPow2 | lib/collatz.cpp:217 | (n0\|...\|n7) >= CACHE_LIMIT iff some lane is >= CACHE_LIMIT, for a power-of-two CACHE_LIMIT |
| Words.BitOrZero | lib/collatz_simd.cpp:160-162 | an OR of masks is zero iff both are zero (the "any lane active" test) |
| Collatz.ChainUnique | lib/collatz.cpp:124-137 | the step count from n to 1 is unique, so the cache has one correct content |
| Collatz.ChainShift | lib/collatz.cpp:128-131 | shifting out up to ctz(n) zeros consumes exactly that many steps of n's chain |
| Collatz.ChainOddStep | lib/collatz.cpp:132-135 | the odd step (3n+1)>>1 consumes exactly two steps of n's chain and stays below 2^64 |
| Collatz.ChainBack | lib/collatz_simd.cpp:96-104 | a chain of Next(n) extends to a chain of n one step longer |
| Cache.WalkBelowPhase | lib/collatz.cpp:125-136 | the inner walk from i ends below phase_start at a value on i's chain, with the steps taken counted mod 2^16 |
| Cache.FillAt | lib/collatz.cpp:137 | cache[i] := steps + cache[n] stores i's chain length mod 2^16 and touches nothing else |
| Cache.FillRange | lib/collatz.cpp:124-138 | one thread's range [s, e) is filled correctly; every other entry is unchanged |
| Cache.ChunksCover | lib/collatz.cpp:115 | for threads > 0, chunk = ceil(len / threads) makes the threads' ranges reach the end of the phase, and one chunk fewer per thread would not |
| Cache.PhaseChunk | lib/collatz.cpp:109-115 | the chunk as written: undefined (None) exactly when hardware_concurrency() reports 0, otherwise the least chunk whose threads cover the phase |
| Cache.ZeroHardwareThreads | lib/collatz.cpp:109-115 | with a hardware count of 0, the first phase of any cache of more than two entries divides by zero |
| Cache.BuilderThreads | lib/collatz_simd.cpp:420-421 | the guarded thread count is the hardware count when positive and 4 otherwise, so every phase's chunk is defined |
| Cache.TimesIsMul | lib/collatz.cpp:118 | a proof aid: the model's repeated-addition Times(t, chunk), used in FillPhase's loop invariant, equals the product t * chunk the source multiplies out |
| Cache.FillChunk | lib/collatz.cpp:118-138 | thread t fills [s, min(s + chunk, phase_end)) correctly and writes nothing outside it |
| Cache.FillPhase | lib/collatz.cpp:113-141 | after a phase every entry below phase_end is correct, and entries outside the phase are unchanged |
| Cache.BuildCacheParallel | lib/collatz.cpp:102-148 | for a positive thread count, the phase-built cache has CACHE_LIMIT entries, cache[1] = 0, and every entry is its index's chain length mod 2^16 |
| Cache.BuildCacheGuarded | lib/collatz.cpp:102-148 | for any reported hardware count, 0 included, the phase-built cache is correct at every index |
| Cache.WalkBelowSelf | lib/collatz_simd.cpp:94-104 | the walk from i ends below i at a value on i's chain, with the steps taken counted mod 2^16 |
| Cache.FillOne | lib/collatz_simd.cpp:105 | collatz_cache[i] = steps + collatz_cache[n] stores i's chain length mod 2^16 and touches nothing else |
| Cache.BuildCacheSequential | lib/collatz_simd.cpp:85-111 | the sequentially built cache is correct at every index |
| Cache.EntryFrom | lib/collatz.cpp:137 | the 16-bit sum of the walk's steps and the entry it lands on is the chain length mod 2^16 |
| Cache.CachesAgree | lib/collatz_simd.cpp:85-111 | any two correct caches of the same size are equal, so build_cache and build_cache_parallel produce the same table |
| Cache.CacheEntry | lib/collatz.cpp:228 | a correct cache holds k mod 2^16 at n whenever n's chain has length k |
| Format.DigitChar | lib/collatz.cpp:292 | each digit value becomes the decimal character of that value |
| Format.Decimal | lib/collatz.cpp:292 | std::to_string of an unsigned is a non-empty string of decimal digits |
| Format.DecimalValue | lib/collatz.cpp:292 | the decimal string reads back as the number, and has no leading zero except for 0 itself |
| Format.StripAppend | lib/collatz.cpp:294 | removing commas distributes over concatenation |
| Format.StripDigits | lib/collatz.cpp:292 | a string of digits has no commas to remove |
| Format.FormatNumber | lib/collatz.cpp:290-296 | INT64_MAX formats as "NONE"; any other number formats as its decimal digits with commas, where removing the commas gives back the digits and commas sit exactly every three digits from the right |
| Format.InsertComma | lib/collatz.cpp:294 | one insertion at pos adds a comma before the group d[pos..pos+3] and keeps the tail well-grouped |
| Format.TailGrow | lib/collatz.cpp:294 | a comma followed by three digits, put in front of a well-grouped tail, gives a well-grouped tail |
| Format.StripGroup | lib/collatz.cpp:294 | removing the commas of ",ddd" + t gives ddd followed by t without commas |
| Format.GroupedJoin | lib/collatz.cpp:293-294 | a one-to-three-digit lead in front of the grouped tail is grouped, and without commas it is the whole decimal string |
| Format.GroupedLead | lib/collatz.cpp:293-294 | a lead of one to three digits in front of a well-grouped tail is a grouped number |
| Format.GroupedAt | lib/collatz.cpp:293-294 | in such a string, position i holds a comma iff the characters from i to the end number a multiple of four |
| ScalarStep.SafeThresholdExact | lib/collatz.cpp:99 | 3 * SAFE_THRESHOLD + 1 is exactly INT64_MAX, so the fast branch never exceeds INT64_MAX |
| ScalarStep.OddPartFacts | lib/collatz.cpp:167-168 | next_val >> fast_ctz(next_val) is odd, at most next_val, and times 2^zeros gives next_val |
| ScalarStep.StepHybrid | lib/collatz.cpp:161-197 | step_hybrid with 128-bit integers: nothing changes below CACHE_LIMIT; when 3n+1 > INT64_MAX, n becomes 0, overflow becomes min(overflow, seed), and steps and peak are unchanged; otherwise n becomes the odd part of 3n+1, steps grows by 1 + ctz (mod 2^32), and peak becomes max(peak, 3n+1) |
| ScalarStep.AdvanceOdd | lib/collatz.cpp:165-169 | the common tail: the odd part of next, steps + 1 + ctz(next), peak raised to next |
| ScalarStep.StepHybridNoInt128 | lib/collatz.cpp:171-181 | as written without 128-bit integers, no step from n >= SAFE_THRESHOLD records an overflow |
| ScalarStep.NoInt128MissesOverflow | lib/collatz.cpp:171-181 | for n = SAFE_THRESHOLD + 1 the wide build stops and records n; the build without 128-bit integers records nothing, carries on, and takes 3n+1 > INT64_MAX as its peak |
| ScalarStep.StepSettles | lib/collatz.cpp:163-196 | a step keeps the walk's termination witness and strictly lowers its pending measure while n >= CACHE_LIMIT |
| ScalarStep.HybridWalk | lib/collatz.cpp:252-255 | the walk `while (n >= CACHE_LIMIT) step_hybrid` ends with n below CACHE_LIMIT, so cache[n] is in bounds |
| ScalarStep.StepLaneIndependent | lib/collatz.cpp:161-162 | the new n, steps and peak do not depend on the seed or the overflow candidate |
| ScalarStep.HybridWalkWitness | lib/collatz.cpp:252-255 | the walk's outcome does not depend on which termination witness is used |
| ScalarStep.HybridWalkChain | lib/collatz.cpp:252-256 | on a seed whose chain has length K, a walk that does not overflow ends on that chain and has counted exactly the steps it skipped (mod 2^32) |
| ScalarStep.WalkUnfold | lib/collatz.cpp:252-255 | one loop iteration unfolds the walk; a 3n+1 above INT64_MAX ends it with n = 0 |
| ScalarStep.StepOnChain | lib/collatz.cpp:164-169 | a fast step from an odd value on a chain lands on the chain 1 + z steps further, and counts 1 + z |
| ScalarStats.InitStats | lib/collatz.cpp:152-158 | a fresh ThreadResult has a HIST_SIZE histogram |
| ScalarStats.Bucket | lib/collatz.cpp:232 | every length maps into the histogram: min(s, HIST_SIZE - 1) |
| ScalarStats.TallyHistCounts | lib/collatz.cpp:231-234 | after recording seeds, each histogram slot has grown by the number of seeds whose bucket it is |
| ScalarStats.TallyHistTotal | lib/collatz.cpp:257 | each recorded seed adds exactly one to the histogram's total |
| ScalarStats.TallyLongestSpec | lib/collatz.cpp:236-241 | max_length bounds every recorded length; it is either unchanged or the length of the FIRST seed of greatest length, which is strictly longer than the start |
| ScalarStats.TallyLongestFrom | lib/collatz.cpp:266-273 | recording on top of a global record is a strict-longer merge of the worker's own record |
| ScalarStats.TallyPeakSpec | lib/collatz.cpp:243-244 | max_peak bounds every recorded peak and is the start or one of them |
| ScalarStats.TallyPeakFrom | lib/collatz.cpp:264 | recording on top of a peak is max(peak, the worker's own peak) |
| ScalarStats.TallyOverflowSpec | lib/collatz.cpp:185 | first_overflow is at most every overflowed seed and is the start or one of them |
| ScalarStats.TallyOverflowFrom | lib/collatz.cpp:263 | recording on top of a lower start is min(start, the worker's own first overflow) |
| ScalarStats.TallyOverflowFlags | lib/collatz.cpp:218-225 | first_overflow depends only on the seeds and their overflow flags |
| ScalarStats.TallyOverflowRaise | lib/collatz.cpp:185 | flagging one more seed lowers first_overflow to min(before, that seed) |
| ScalarStats.TallyOne | lib/collatz.cpp:256-259 | recording one seed bumps its bucket, applies the strict-longer test, raises the peak and, if it overflowed, lowers first_overflow |
| ScalarStats.TallyHistAppend | lib/collatz.cpp:248-260 | recording a + b into the histogram is recording a, then b |
| ScalarStats.TallyRestAppend | lib/collatz.cpp:248-260 | the longest, peak and overflow records of a + b are those of a, then b |
| ScalarStats.TallyAppend | lib/collatz.cpp:210-260 | recording a + b is recording a, then b, so groups and the remainder loop compose |
| ScalarWorker.OddsMembers | lib/collatz.cpp:248 | the seeds of [lo, hi) the worker visits are odd and in range |
| ScalarWorker.OddsSplit | lib/collatz.cpp:210-248 | the odd seeds of [a, c) are those of [a, b) followed by those of [b, c) |
| ScalarWorker.OddsStep | lib/collatz.cpp:248 | the remainder loop visits lo, then continues at lo + 2 |
| ScalarWorker.OddsGroup | lib/collatz.cpp:211-212 | a group at odd i holds the seeds i, i+2, ..., i+14 |
| ScalarWorker.NormalizedStart | lib/collatz.cpp:204-205 | the adjusted start is odd, and seed 1 is skipped: the seeds visited are the odd seeds from max(start, 3) |
| ScalarWorker.SeedStatsAppend | lib/collatz.cpp:210-260 | the per-seed records of a + b are those of a followed by those of b |
| ScalarWorker.SeedOfFinal | lib/collatz.cpp:252-259 | a seed's record is its walk's final cache lookup: length steps + cache[n], its peak, and overflowed iff n = 0 |
| ScalarWorker.StepKeepsWalk | lib/collatz.cpp:218-225 | each step_hybrid of a lane keeps it on its walk, with a smaller pending measure while it is active |
| ScalarWorker.TotalPendingLess | lib/collatz.cpp:217-226 | a round of eight steps that advances some active lane lowers the group's total measure, so the lockstep loop ends |
| ScalarWorker.ThreadResult.constructor | lib/collatz.cpp:152-158 | a fresh ThreadResult: zero histogram, no longest seed, peak 0, first_overflow INT64_MAX |
| ScalarWorker.StepRound | lib/collatz.cpp:218-225 | one round steps all eight lanes, and first_overflow follows the lanes that have stopped on an overflow |
| ScalarWorker.WalkGroup | lib/collatz.cpp:210-226 | the lockstep loop leaves each lane at its own walk's end, and first_overflow lowered to the overflowed seeds of the group |
| ScalarWorker.GroupStats | lib/collatz.cpp:228-229 | after the loop each lane indexes the cache in bounds, and its record is steps + cache[n] |
| ScalarWorker.RecordGroup | lib/collatz.cpp:228-244 | the histogram, longest and peak updates of a group record its eight seeds in seed order |
| ScalarWorker.RunGroup | lib/collatz.cpp:210-245 | one group of eight records its seeds i..i+14 in order, and overflowed seeds are still counted |
| ScalarWorker.WalkSingle | lib/collatz.cpp:249-255 | the remainder walk ends at the seed's walk end, lowering first_overflow exactly when it stopped on an overflow |
| ScalarWorker.RecordSingle | lib/collatz.cpp:256-259 | one remainder seed bumps its bucket, applies the strict-longer test and raises the peak |
| ScalarWorker.RunSingle | lib/collatz.cpp:248-260 | one remainder iteration records exactly its seed |
| ScalarWorker.ExtendSeeds | lib/collatz.cpp:210-260 | recording up to j is recording up to i, then the seeds of [i, j) |
| ScalarWorker.OneSeed | lib/collatz.cpp:248 | the remainder step at odd i records exactly the one seed i |
| ScalarWorker.ExtendOne | lib/collatz.cpp:248-260 | the remainder loop's invariant holds after one more seed |
| ScalarWorker.ExtendGroup | lib/collatz.cpp:210-245 | the group loop's invariant holds after one more group |
| ScalarWorker.GroupLoop | lib/collatz.cpp:210-245 | the group loop records the odd seeds from start up to where it stops, with fewer than eight seeds left |
| ScalarWorker.RemainderLoop | lib/collatz.cpp:248-260 | the remainder loop records the remaining odd seeds up to end inclusive |
| ScalarWorker.WorkerRange | lib/collatz.cpp:204-207 | the normalised start and end bound exactly the worker's seed list, the odd seeds of [max(start, 3), end] |
| ScalarWorker.WorkerDone | lib/collatz.cpp:248 | when the remainder loop stops past end, every seed has been recorded |
| ScalarWorker.WorkerStatic | lib/collatz.cpp:200-260 | worker_static's ThreadResult is the record of every odd seed of [max(start, 3), end], each once, in increasing order |
| ScalarWorker.OverflowNone | lib/collatz.cpp:263 | with no overflowed seed, first_overflow keeps its start value |
| ScalarWorker.ScalarSeedLength | lib/collatz.cpp:249-256 | for a seed whose chain has length K < 2^16 and that does not overflow, the recorded length is K |
| ScalarCompute.ResetTotals | lib/collatz.cpp:299-303 | the scalar engine resets "no overflow" to INT64_MAX and clears the histogram map |
| ScalarCompute.MergeHistCounts | lib/collatz.cpp:276-283 | the histogram merge adds each local bucket to its key's count; a key is present iff it was before or its bucket is nonzero |
| ScalarCompute.MergeWorkerHist | lib/collatz.cpp:276-283 | merging a worker's histogram is adding one count per seed at that seed's bucket |
| ScalarCompute.MergeCounts | lib/collatz.cpp:276-283 | merging a histogram whose slots count a bucket list adds that bucket list |
| ScalarCompute.BucketKey | lib/collatz.cpp:279 | a bucket appears among a worker's seeds iff its count is nonzero |
| ScalarCompute.AddBucketsAppend | lib/collatz.cpp:276-283 | merging bucket lists one after the other is merging their concatenation |
| ScalarCompute.AbsorbWorker | lib/collatz.cpp:262-283 | merging a worker's ThreadResult into the globals is recording its seeds on top of the globals |
| ScalarCompute.FoldAppend | lib/collatz.cpp:317-324 | merging workers one after the other is recording their seeds in sequence |
| ScalarCompute.Globals.constructor | lib/collatz.cpp:45-52 | the globals start at the reset values |
| ScalarCompute.Globals.Merge | lib/collatz.cpp:262-283 | the end of worker_static: min of first_overflow, max of peak, longest replaced only by a strictly longer one, histogram added |
| ScalarCompute.Globals.MergeHistogram | lib/collatz.cpp:276-283 | the histogram map gains each nonzero local bucket and nothing else changes |
| ScalarCompute.ThreadCount | lib/collatz.cpp:309-311 | countThread 0 means one thread; the count is clamped to limit, and is 1 when limit is 0 |
| ScalarCompute.WorkerSeedsJoin | lib/collatz.cpp:318-319 | adjacent ranges [a, b] and [b+1, c] together give the seeds of [a, c] |
| ScalarCompute.PartitionRange | lib/collatz.cpp:314-321 | with limit >= 1 no worker range starts or ends past limit, so the break and the clamp never fire |
| ScalarCompute.PartitionCovers | lib/collatz.cpp:317-323 | the worker ranges cover [1, limit] exactly once and in order, whatever the thread count |
| ScalarCompute.RunWorker | lib/collatz.cpp:322 | running and merging one worker extends the record from [1, t_start - 1] to [1, t_end] |
| ScalarCompute.ComputeStep | lib/collatz.cpp:317-324 | merging the next worker's range extends the globals' record by exactly that range's seeds |
| ScalarCompute.RunWorkers | lib/collatz.cpp:313-324 | the thread loop leaves the globals equal to the record of every odd seed of [3, limit] |
| ScalarCompute.Compute | lib/collatz.cpp:298-339 | for any reported hardware count, collatz_compute builds a correct cache, and its result is the record of every odd seed of [3, limit] in order, independent of the thread count |
| ScalarCompute.ReportMeaning | lib/collatz.cpp:328-337 | the reported first_overflow is the least overflowed seed (INT64_MAX if none); max_peak is the greatest peak; longest is the first seed of greatest length (seed 1 and length 0 if nothing beats it); the histogram map counts the seeds per bucket and has a key exactly for the buckets that occur |
| SimdLane.OverflowThresholdExact | lib/collatz_simd.cpp:51-52 | OVERFLOW_THRESHOLD is (INT64_MAX - 1) / 3, equal to SAFE_THRESHOLD; an odd v exceeds it iff 3v+1 > INT64_MAX |
| SimdLane.Width | lib/collatz_simd.cpp:131 | a vector has two lanes (NEON) or four (AVX2) |
| SimdLane.StepAsWritten | lib/collatz_simd.cpp:164-178 | both intrinsic sequences compute the same lane step |
| SimdLane.NeonAgrees | lib/collatz_simd.cpp:164-178 | STEP_NEON built from vcgtq/vandq/vbslq/vtstq/vshrq/vaddq/vorrq equals the lane step |
| SimdLane.NeonValue | lib/collatz_simd.cpp:168-175 | STEP_NEON's new value: V>>1 for even lanes, V+(V>>1)+1 for odd lanes, masked by M |
| SimdLane.NeonSteps | lib/collatz_simd.cpp:174-176 | STEP_NEON's step counter grows by 2 on odd lanes and 1 on even lanes, only while active |
| SimdLane.NeonPeak | lib/collatz_simd.cpp:166-167 | STEP_NEON raises the peak to V on active lanes |
| SimdLane.NeonOverflow | lib/collatz_simd.cpp:171-172 | STEP_NEON's overflow mask gains active odd lanes above OVERFLOW_THRESHOLD |
| SimdLane.AvxAgrees | lib/collatz_simd.cpp:307-334 | STEP_AVX built from the sign-flip compare, shifts and blendv equals the lane step |
| SimdLane.AvxValue | lib/collatz_simd.cpp:315-331 | STEP_AVX's new value equals the lane step's |
| SimdLane.AvxSteps | lib/collatz_simd.cpp:328-332 | STEP_AVX's step counter equals the lane step's |
| SimdLane.AvxPeak | lib/collatz_simd.cpp:310-312 | STEP_AVX's peak equals the lane step's |
| SimdLane.AvxOverflow | lib/collatz_simd.cpp:320-324 | STEP_AVX's overflow mask equals the lane step's |
| SimdLane.LaneStepMeaning | lib/collatz_simd.cpp:164-178 | the new mask is V > CACHE_LIMIT. An active odd lane at most OVERFLOW_THRESHOLD becomes (3V+1)/2; an active even lane becomes V/2. An active lane's peak becomes max(P, V), and its flag is set iff it was set or V is odd with 3V+1 > INT64_MAX. The flag is sticky, and an inactive lane is unchanged |
| SimdLane.LaneRun | lib/collatz_simd.cpp:159-184 | the lockstep loop ends with every lane at most CACHE_LIMIT and its mask clear |
| SimdLane.LaneRunWitness | lib/collatz_simd.cpp:159-184 | a lane's outcome does not depend on the termination witness |
| SimdLane.StepVector | lib/collatz_simd.cpp:180-183 | one STEP macro applies the lane step to the lanes of its vector and leaves the other lanes alone |
| SimdLane.StepVectors | lib/collatz_simd.cpp:180-183 | one pass of the loop body applies the lane step to all sixteen lanes |
| SimdLane.WitnessesDecrease | lib/collatz_simd.cpp:159-162 | while any lane is active, a pass lowers the sum of the lanes' witnesses, so while(1) ends |
| SimdLane.WalkVectors | lib/collatz_simd.cpp:159-184 | the lockstep loop leaves each lane at its own run's end |
| SimdLane.LaneRunSticky | lib/collatz_simd.cpp:172 | once set, a lane's overflow flag stays set to the end of its run |
| SimdLane.EvenLaneStep | lib/collatz_simd.cpp:169-176 | an active even lane halves and counts one step, its flag unchanged |
| SimdLane.OddLaneStep | lib/collatz_simd.cpp:168-176 | an active odd lane becomes (3V+1)/2 and counts two steps; its flag is raised iff V > OVERFLOW_THRESHOLD |
| SimdLane.LaneRunChain | lib/collatz_simd.cpp:159-184 | on a seed whose chain has length K, the lane ends on that chain and has counted exactly the steps it skipped |
| SimdLane.Drain | lib/collatz_simd.cpp:191-195 | finalize's loop `while (n >= CACHE_LIMIT)` also takes a lane equal to CACHE_LIMIT below it |
| SimdLane.FinishLane | lib/collatz_simd.cpp:186-199 | finalize of a lane computes its full step count and its final peak |
| SimdLane.FinishLength | lib/collatz_simd.cpp:186-196 | for a seed whose chain has length K < 2^16, finalize's count is K; for a seed the cleanup does not abandon, this is the count the cleanup computes (SimdCleanup.CleanupLength) |
| SimdLane.FinishFrom | lib/collatz_simd.cpp:191-196 | finalize from a lane on a chain with `rest` steps to go adds exactly `rest` |
| SimdLane.RescanSeed | lib/collatz_simd.cpp:209-221 | the ARM rescan of a seed reports whether its walk meets an odd n > OVERFLOW_THRESHOLD |
| SimdLane.RescanMatchesLane | lib/collatz_simd.cpp:207-223 | the rescan's verdict for a seed is exactly its lane's overflow flag |
| SimdLane.StepFollowsRescan | lib/collatz_simd.cpp:211-220 | below the threshold, a lane step and a rescan step move to the same value |
| Bits.CmpGtU64 | lib/collatz_simd.cpp:288-290 | XOR-ing both operands with 2^63 and comparing as signed is the unsigned a > b, as a full mask |
| Bits.FlipSignSigned | lib/collatz_simd.cpp:268 | flipping the sign bit maps u64 order onto signed order: signed(a ^ 2^63) = a - 2^63 |
| Bits.Shl63LowBit | lib/collatz_simd.cpp:320 | V << 63 is the low bit of V moved to the sign position |
| Bits.Sra63Sign | lib/collatz_simd.cpp:320 | an arithmetic shift right by 63 is all ones iff the sign bit is set |
| Bits.OddMask | lib/collatz_simd.cpp:320 | the is_odd mask (and NEON's vtstq with 1) is all ones iff V is odd |
| Bits.Bsl | lib/collatz_simd.cpp:173-175 | vbslq with a full mask picks the first operand, with a zero mask the second |
| Bits.Blendv | lib/collatz_simd.cpp:327-331 | _mm256_blendv_epi8 with a full mask picks the second operand, with a zero mask the first |
| Bits.AndMask | lib/collatz_simd.cpp:176 | AND with a mask keeps the value or zeroes it |
| Bits.MaskLogic | lib/collatz_simd.cpp:171-172 | AND and OR of masks are the masks of the conjunction and the disjunction |
| Bits.AndMasks | lib/collatz_simd.cpp:171 | AND of two masks is the mask of both |
| Bits.OrMasks | lib/collatz_simd.cpp:172 | OR of two masks is the mask of either |
| Bits.KeepIf | lib/collatz_simd.cpp:176 | a value ANDed with a mask is kept iff the mask is set |
| SimdStats.FoldLongestSpec | lib/collatz_simd.cpp:197 | with lengths below 2^32, local_longest bounds every counted length and is the start or the FIRST counted seed of greatest length |
| SimdStats.WideLengthTruncates | lib/collatz_simd.cpp:197 | a 64-bit count of 2^32 + 5 is compared wide but stored truncated to 5, after which a length of 6 wins |
| SimdStats.FoldLongestFrom | lib/collatz_simd.cpp:69-77 | recording on top of a global record is a strict-longer merge of the worker's own record |
| SimdStats.FoldPeakSpec | lib/collatz_simd.cpp:198 | local_max_peak bounds every counted peak and is the start or one of them |
| SimdStats.FoldPeakFrom | lib/collatz_simd.cpp:64-67 | recording on top of a peak is max(peak, the worker's own peak) |
| SimdStats.FoldOverflowSpec | lib/collatz_simd.cpp:233 | local_first_overflow is at most every overflowed seed and is the start or one of them |
| SimdStats.FoldOverflowFrom | lib/collatz_simd.cpp:79-82 | recording on top of a start is min(start, the worker's own first overflow) |
| SimdStats.FoldAppend | lib/collatz_simd.cpp:132-242 | recording a + b is recording a, then b |
| SimdStats.FoldLast | lib/collatz_simd.cpp:237-241 | recording one more seed applies the peak max, the strict-longer test and the overflow min of that seed |
| SimdCleanup.CleanupWalk | lib/collatz_simd.cpp:229-236 | the cleanup walk ends below CACHE_LIMIT or abandoned on an overflow |
| SimdCleanup.CleanupWalkWitness | lib/collatz_simd.cpp:229-236 | the cleanup walk's outcome does not depend on the termination witness |
| SimdCleanup.CleanupRecordOf | lib/collatz_simd.cpp:228-241 | a seed's cleanup record is the record of its cleanup walk |
| SimdCleanup.CleanupSeed | lib/collatz_simd.cpp:228-241 | one cleanup iteration computes the seed's record: steps + cache[n] and its peak, or "overflowed, not counted" |
| SimdCleanup.CleanupChain | lib/collatz_simd.cpp:229-236 | on a seed whose chain has length K, a non-overflowing cleanup walk ends on that chain having counted exactly the steps it skipped |
| SimdCleanup.EvenScanStep | lib/collatz_simd.cpp:231 | an even value sheds all trailing zeros at once and counts them |
| SimdCleanup.OddScanStep | lib/collatz_simd.cpp:233-234 | an odd value at most OVERFLOW_THRESHOLD becomes (3n+1)/2 and counts two |
| SimdCleanup.CleanupLength | lib/collatz_simd.cpp:237-238 | for a non-overflowing seed whose chain has length K < 2^16, the cleanup's count is K |
| SimdWorker.GroupSeeds | lib/collatz_simd.cpp:133-136 | a group holds the sixteen seeds i, i+2, ..., i+30 |
| SimdWorker.LaneRecordOf | lib/collatz_simd.cpp:186-200 | a grouped seed's record is the finalize record of its lane's run |
| SimdWorker.GroupRecords | lib/collatz_simd.cpp:132-224 | a group's records are for its sixteen seeds, in seed order |
| SimdWorker.FinalizeLanes | lib/collatz_simd.cpp:186-205 | finalize over the lanes in seed order raises local_max_peak and applies the strict-longer test for each lane |
| SimdWorker.RescanLanes | lib/collatz_simd.cpp:207-223 | the ARM rescan lowers local_first_overflow to each overflowing seed of the group |
| SimdWorker.AttributeOverflow | lib/collatz_simd.cpp:342-359 | the x86 attribution maps flagged lane (v, l) to seed i + 8v + 2l and lowers local_first_overflow to it |
| SimdWorker.NoOverflowKeeps | lib/collatz_simd.cpp:207 | with no lane flagged, the overflow record is untouched, so skipping the rescan loses nothing |
| SimdWorker.RunGroup | lib/collatz_simd.cpp:132-224 | one group records its sixteen seeds on top of the locals |
| SimdWorker.NoteCleanup | lib/collatz_simd.cpp:233-241 | one cleanup seed either lowers the first overflow or updates the longest and peak records |
| SimdWorker.CleanupRecords | lib/collatz_simd.cpp:227-242 | the cleanup records are for the given seeds, in order |
| SimdWorker.GroupSplit | lib/collatz_simd.cpp:132 | while i + 30 < end, the seeds split into the group i..i+30 and the seeds from i + 32 |
| SimdWorker.OddsGroupSplit | lib/collatz_simd.cpp:132-136 | the odd seeds of [i, end) begin with the sixteen seeds of the group at i |
| SimdWorker.OddsRun | lib/collatz_simd.cpp:133-136 | the first n odd seeds from odd i are i, i+2, ... |
| SimdWorker.OddsHead | lib/collatz_simd.cpp:227 | the cleanup visits i, then continues at i + 2 |
| SimdWorker.WorkerRecordsSeeds | lib/collatz_simd.cpp:132-242 | the worker records exactly the odd seeds of [i, end), each once, in order |
| SimdWorker.FirstOddSeeds | lib/collatz_simd.cpp:128-129 | rounding an even start up does not change the odd seeds of [start, end) |
| SimdWorker.SimdRecordsSeeds | lib/collatz_simd.cpp:115-242 | worker_simd's records are for exactly the odd seeds of [start, end) |
| SimdWorker.WorkerSimd | lib/collatz_simd.cpp:115-245 | worker_simd's locals are the record of every odd seed of [start, end), each once, in increasing order |
| SimdWorker.GroupLoop | lib/collatz_simd.cpp:132-224 | the group loop records the groups and leaves the rest, at an odd i, for the cleanup |
| SimdWorker.CleanupLoop | lib/collatz_simd.cpp:227-242 | the cleanup loop records the remaining odd seeds of [i, end) |
| SimdWorker.CleanupFoldStep | lib/collatz_simd.cpp:227-242 | the cleanup loop's invariant holds after one more seed |
| SimdWorker.CleanupStepSeeds | lib/collatz_simd.cpp:227 | the cleanup records of [i, end) are i's record followed by those of [i + 2, end) |
| SimdWorker.CleanupRecordsCons | lib/collatz_simd.cpp:227-242 | the cleanup records of a seed list are the first seed's record followed by the rest's |
| SimdWorker.GroupFoldStep | lib/collatz_simd.cpp:132-224 | the group loop's invariant holds after one more group |
| SimdWorker.WorkerRecordsTail | lib/collatz_simd.cpp:227-242 | once i + 30 >= end, the rest of the worker's records are cleanup records |
| SimdWorker.WorkerRecordsGroup | lib/collatz_simd.cpp:132-224 | while i + 30 < end, the worker's records are the group's records followed by the rest |
| SimdCompute.ResetLocals | lib/collatz_simd.cpp:413-416 | the vector engine resets "no overflow" to UINT64_MAX, not INT64_MAX, and the longest length to 0 |
| SimdCompute.AbsorbWorker | lib/collatz_simd.cpp:243-245 | with lengths below 2^32, merging a worker's locals is recording its seeds on top of the globals |
| SimdCompute.SimdGlobals.constructor | lib/collatz_simd.cpp:58-61 | the globals' static initial values |
| SimdCompute.SimdGlobals.Reset | lib/collatz_simd.cpp:413-416 | the reset at the top of collatz_compute_simd |
| SimdCompute.SimdGlobals.UpdateMaxPeak | lib/collatz_simd.cpp:64-67 | g_max_peak becomes max(g_max_peak, val) |
| SimdCompute.SimdGlobals.UpdateLongest | lib/collatz_simd.cpp:69-77 | the length and seed are replaced together, and only by a strictly longer length |
| SimdCompute.SimdGlobals.UpdateOverflow | lib/collatz_simd.cpp:79-82 | g_first_overflow becomes min(g_first_overflow, seed) |
| SimdCompute.SimdGlobals.Merge | lib/collatz_simd.cpp:243-245 | the three updates at the end of worker_simd |
| SimdCompute.NumThreads | lib/collatz_simd.cpp:420-421 | countThread when positive, else the hardware concurrency, else 4 |
| SimdCompute.Chunk | lib/collatz_simd.cpp:434 | chunk = limit / num_threads, so the threads' starts stay within limit |
| SimdCompute.ThreadRange | lib/collatz_simd.cpp:438-441 | every thread's start and end are at most max(limit, 1), and a non-empty range ends by limit; the start can be 0 (the last thread when chunk = 0) |
| SimdCompute.WalksWithin | lib/collatz_simd.cpp:438-441 | a sub-range of [1, limit) inherits the walk requirements |
| SimdCompute.ThreadWalks | lib/collatz_simd.cpp:438-441 | every thread's range meets the walk requirements |
| SimdCompute.PartitionSeeds | lib/collatz_simd.cpp:438-441 | the threads together visit the odd seeds of [1, limit), excluding limit itself. With two or more threads and an odd chunk, seed `chunk` is visited twice: it ends thread 0's range [1, chunk + 1) and starts thread 1's |
| SimdCompute.LastThreadAlone | lib/collatz_simd.cpp:439-440 | when chunk is 0, only the last thread has seeds: all of [1, limit) |
| SimdCompute.SpreadThreads | lib/collatz_simd.cpp:439-440 | with chunk >= 1 the threads visit [1, chunk + 1) and then [chunk, limit) |
| SimdCompute.EvenChunkJoin | lib/collatz_simd.cpp:439-440 | with an even chunk the overlap holds no odd seed, and the ranges join to [1, limit) |
| SimdCompute.EmptyThreads | lib/collatz_simd.cpp:439-440 | with chunk 0 every thread but the last has an empty range |
| SimdCompute.MiddleThreads | lib/collatz_simd.cpp:439-440 | the first t threads visit [1, chunk + 1) and then [chunk, t * chunk) |
| SimdCompute.DuplicateSeedExample | lib/collatz_simd.cpp:439-440 | for limit 6 and two threads the seeds visited are 1, 3, 3, 5 |
| SimdCompute.MergeThreadsFold | lib/collatz_simd.cpp:438-446 | with lengths below 2^32, merging the threads in order is recording all their seeds in order |
| SimdCompute.AllRecordsSeeds | lib/collatz_simd.cpp:438-441 | the records of the first t threads are for exactly the seeds those threads visit |
| SimdCompute.SimdResultOf | lib/collatz_simd.cpp:451-458 | the reported first_overflow is 0 exactly when no overflow was recorded (or the overflow seed is 0) |
| SimdCompute.RunThread | lib/collatz_simd.cpp:438-441 | thread t runs worker_simd on [s, e) and merges its locals |
| SimdCompute.RunThreads | lib/collatz_simd.cpp:438-446 | after the thread loop the globals are every thread's merge, in thread order |
| SimdCompute.ComputeMeaning | lib/collatz_simd.cpp:411-458 | with lengths below 2^32, the merged globals hold one record per seed of the thread ranges; first_overflow is the least overflowed seed (UINT64_MAX if none), max_peak the greatest counted peak, and longest the first counted seed of greatest length (seed 1 and length 0 if nothing beats it) |
| SimdCompute.ComputeSimd | lib/collatz_simd.cpp:411-461 | collatz_compute_simd builds a correct cache, merges every thread's records on top of the reset globals, and reports them with "no overflow" as 0 |

## Left out

- Logging, timing and the result pipe are not modelled: `write_to_log`, `write_to_log_simd`, `seconds`, `throughput`, and `collatz_compute_and_write_pipe` / `collatz_compute_simd_and_write_pipe`. They are I/O, clocks and floating point.
- Threads, joins, memory orders and compare-and-swap retries are not modelled.
  - Workers, phases and build threads run one after the other, in thread order, and each CAS loop is its final effect.
  - The source's length ties between workers depend on which thread merges first. The model fixes thread order, so its "earliest seed wins ties" holds only for that order.
- The hardware concurrency (`std::thread::hardware_concurrency`), `CACHE_LIMIT` and the phase size of 100000 are parameters. A hardware count of 0 is allowed; for `build_cache_parallel` it is the finding below. The power-of-two `CACHE_LIMIT` is a requirement.
- SIMD intrinsics are modelled by their lane-wise meaning on naturals below 2^64, not as bit vectors. `CTZ` and `fast_ctz` are the mathematical trailing-zero count. The `CTZ(n) 0` fallback for platforms without a builtin is not modelled.
- Cache.BuildCacheParallel: requires a positive thread count, which `hardware_concurrency()` does not guarantee (see the finding below; `collatz_compute` goes through Cache.BuildCacheGuarded). It also requires every walk below `CACHE_LIMIT` to reach 1 without leaving 64 bits (`WalksEnd`). Collatz termination cannot be proved, so this is an assumption and not a result.
- Cache.BuildCacheSequential: the same `WalksEnd` assumption.
- ScalarCompute.Compute: requires a termination witness for every seed of [1, limit] (`AllSettle`). It also requires `limit + 16 < 2^64`. The source's `i + 14 <= end` wraps near 2^64, and that is not modelled.
- ScalarWorker.WorkerStatic: requires `end + 16 < 2^64` and termination witnesses for its seeds, for the reasons above.
- SimdWorker.WorkerSimd: requires `end + 32 < 2^64` and termination witnesses for both the lane walk and the cleanup walk of each seed.
- SimdCompute.ComputeSimd: requires `RunOk`: an even cache limit, `WalksEnd`, `limit + 33 < 2^64` and termination witnesses for every odd seed of [1, limit).
- SimdCompute.MergeThreadsFold: assumes every counted length fits in 32 bits (`LensFit`). Beyond that, the source stores a 64-bit count into a 32-bit record, and the merged record is no longer a simple fold; SimdStats.WideLengthTruncates shows the truncation.
- SimdCompute.AbsorbWorker: the same `LensFit` assumption.
- ScalarWorker.ScalarSeedLength: stated for chains shorter than 2^16 steps, where the 16-bit cache entry is exact. Longer chains are only stated modulo 2^16 (Cache.CacheEntry, ScalarStep.HybridWalkChain).
- SimdLane.FinishLength: the same bound of 2^16 steps. It does not require the walk to stay below OVERFLOW_THRESHOLD. A seed whose walk meets an odd value above OVERFLOW_THRESHOLD is treated differently by the two paths: a lane keeps walking, flagged, and is finalized and counted for longest and peak, while the cleanup abandons it uncounted. So whether such a seed counts depends on whether it falls in a 16-lane group or in the cleanup.
- SimdCleanup.CleanupLength: the same bound of 2^16 steps.
- `countThread` of `collatz_compute` is a natural. A negative count, which the source converts between signed and unsigned types, is not modelled.
- The vector engine has no histogram, so there is none in its model.
- The NO_INT128 build of `step_hybrid` is modelled only as the finding below. The rest of the model uses the 128-bit build.
- The lane registers are modelled as sequences of lanes, so aliasing among them is not modelled. On ARM the source keeps one `ovf` register, OR-accumulated over all eight vectors; the model splits it into a sticky flag per lane, and only their OR (`AnyOverflow`) is read, as the source reads only the shared register. The cache arrays and ThreadResult's histogram are arrays updated in place.

## Findings

| source | as written | input that shows it | evidently intended | confidence | as-written member | corrected member |
|---|---|---|---|---|---|---|
| lib/collatz.cpp:171-181 | in the NO_INT128 build, the overflow guard `if (n < SAFE_THRESHOLD)` repeats the negation of the enclosing branch's condition, so it never fires: 3n+1 is formed in 64 bits and no overflow is ever recorded | n = SAFE_THRESHOLD + 1 = 3074457345618258603, odd and above CACHE_LIMIT: 3n+1 = 9223372036854775810 > INT64_MAX | stop the walk and record the seed as an overflow when 3n+1 > INT64_MAX, as the 128-bit build does | not executed | ScalarStep.NoInt128MissesOverflow | ScalarStep.StepHybrid |
| lib/collatz.cpp:109-115 | `threads = std::thread::hardware_concurrency()` is used unchecked as the divisor of `chunk = (phase_end - phase_start + threads - 1) / threads` | a platform where hardware_concurrency() reports 0 (the standard allows it when the count is not computable): the first phase divides by zero | fall back to a positive thread count, as collatz_compute_simd does at lib/collatz_simd.cpp:420-421 | not executed | Cache.ZeroHardwareThreads | Cache.BuildCacheGuarded |
