/** What a worker of the vector engine (lib/collatz_simd.cpp) keeps per seed and how it
    folds those records into its locals local_max_peak, local_longest_len /
    local_longest_seed and local_first_overflow. The vector engine keeps no histogram. */
module SimdStats {
  import opened Words
  import opened ScalarStats

  /** The outcome of one seed. len is the 64-bit step count finalize computes (the
      cleanup's 32-bit count, widened); counted says whether the seed takes part in the
      longest and peak records: every lane of a group does, a cleanup seed only when its
      walk was not abandoned. overflowed says whether the seed lowers the first-overflow
      record. */
  datatype SimdSeed = SimdSeed(seed: u64, len: u64, peak: u64, overflowed: bool, counted: bool)

  /** The locals of a worker. */
  datatype Locals = Locals(maxPeak: u64, longest: Longest, firstOverflow: u64)

  /** A worker's locals as declared: peak 0, no longest seed, no overflow (UINT64_MAX). */
  function InitLocals(): Locals
  {
    Locals(0, Longest(0, 0), UINT64_MAX)
  }

  /** `if (s > local_longest_len) { local_longest_len = s; local_longest_seed = d; }`: the
      comparison widens the 32-bit record, the store truncates the 64-bit count. */
  function BeatWide(l: Longest, r: SimdSeed): Longest
  {
    if r.counted && r.len > l.len then Longest(Wrap32(r.len), r.seed) else l
  }

  function FoldLongest(l: Longest, rs: seq<SimdSeed>): Longest
  {
    if |rs| == 0 then l else BeatWide(FoldLongest(l, rs[..|rs| - 1]), rs[|rs| - 1])
  }

  function FoldPeak(p: u64, rs: seq<SimdSeed>): u64
  {
    if |rs| == 0 then p
    else
      var q := FoldPeak(p, rs[..|rs| - 1]);
      if rs[|rs| - 1].counted then Max(q, rs[|rs| - 1].peak) else q
  }

  function FoldOverflow(o: u64, rs: seq<SimdSeed>): u64
  {
    if |rs| == 0 then o
    else
      var q := FoldOverflow(o, rs[..|rs| - 1]);
      if rs[|rs| - 1].overflowed then Min(q, rs[|rs| - 1].seed) else q
  }

  /** The locals after recording rs, in order, on top of loc. The three records are
      independent of one another, so a worker may update them in separate passes. */
  function Fold(loc: Locals, rs: seq<SimdSeed>): Locals
  {
    Locals(FoldPeak(loc.maxPeak, rs), FoldLongest(loc.longest, rs), FoldOverflow(loc.firstOverflow, rs))
  }

  /** Every counted length fits in 32 bits, so the store into local_longest_len keeps it. */
  predicate LensFit(rs: seq<SimdSeed>)
  {
    forall j :: 0 <= j < |rs| && rs[j].counted ==> rs[j].len < TWO32
  }

  // ---------------------------------------------------------------- longest

  /** With lengths that fit in 32 bits, the longest record is the FIRST counted seed of
      greatest length, replacing the start only when strictly longer. */
  lemma {:induction false} FoldLongestSpec(l: Longest, rs: seq<SimdSeed>)
    requires LensFit(rs)
    ensures var r := FoldLongest(l, rs);
      && r.len >= l.len
      && (forall j :: 0 <= j < |rs| && rs[j].counted ==> rs[j].len <= r.len)
      && (r == l ||
          exists j :: 0 <= j < |rs| && rs[j].counted && r == Longest(rs[j].len, rs[j].seed) && l.len < r.len &&
            forall i :: 0 <= i < j && rs[i].counted ==> rs[i].len < r.len)
  {
    if |rs| > 0 {
      var init := rs[..|rs| - 1];
      assert forall j :: 0 <= j < |init| ==> rs[j] == init[j];
      FoldLongestSpec(l, init);
      var q := FoldLongest(l, init);
      var r := FoldLongest(l, rs);
      if r != q {
        assert r == Longest(rs[|rs| - 1].len, rs[|rs| - 1].seed);
        assert forall i :: 0 <= i < |rs| - 1 && rs[i].counted ==> rs[i].len < r.len;
      } else if r != l {
        var j :| 0 <= j < |init| && init[j].counted && q == Longest(init[j].len, init[j].seed) && l.len < q.len &&
          forall i :: 0 <= i < j && init[i].counted ==> init[i].len < q.len;
        assert rs[j] == init[j];
      }
    }
  }

  /** A length of 2^32 or more is compared in full but stored truncated: a seed with
      2^32 + 5 steps leaves a record of length 5, which a later seed of 6 steps beats. */
  lemma {:induction false} WideLengthTruncates()
    ensures var big := SimdSeed(3, TWO32 + 5, 3, false, true);
      var small := SimdSeed(5, 6, 5, false, true);
      && FoldLongest(Longest(0, 0), [big]) == Longest(5, 3)
      && FoldLongest(Longest(0, 0), [big, small]) == Longest(6, 5)
  {
    var big := SimdSeed(3, TWO32 + 5, 3, false, true);
    var small := SimdSeed(5, 6, 5, false, true);
    assert [big, small][..1] == [big];
    assert [big][..0] == [];
  }

  /** Starting the fold from a record l is the same as folding from nothing and then
      letting the result beat l: what atomic_update_longest does with a worker's locals. */
  lemma {:induction false} FoldLongestFrom(l: Longest, rs: seq<SimdSeed>)
    requires LensFit(rs)
    ensures var t := FoldLongest(Longest(0, 0), rs);
      FoldLongest(l, rs) == if t.len > l.len then t else l
  {
    if |rs| > 0 {
      var init := rs[..|rs| - 1];
      assert LensFit(init) by {
        assert forall j :: 0 <= j < |init| ==> rs[j] == init[j];
      }
      FoldLongestFrom(l, init);
    }
  }

  // ---------------------------------------------------------------- peak

  /** The peak record is the greatest of the start and every counted seed's peak. */
  lemma {:induction false} FoldPeakSpec(p: u64, rs: seq<SimdSeed>)
    ensures var r := FoldPeak(p, rs);
      && r >= p
      && (forall j :: 0 <= j < |rs| && rs[j].counted ==> rs[j].peak <= r)
      && (r == p || exists j :: 0 <= j < |rs| && rs[j].counted && r == rs[j].peak)
  {
    if |rs| > 0 {
      var init := rs[..|rs| - 1];
      FoldPeakSpec(p, init);
      assert forall j :: 0 <= j < |init| ==> rs[j] == init[j];
    }
  }

  lemma {:induction false} FoldPeakFrom(p: u64, rs: seq<SimdSeed>)
    ensures FoldPeak(p, rs) == Max(p, FoldPeak(0, rs))
  {
    if |rs| > 0 {
      FoldPeakFrom(p, rs[..|rs| - 1]);
    }
  }

  // ---------------------------------------------------------------- overflow

  /** The overflow record is the smallest of the start and every overflowed seed. */
  lemma {:induction false} FoldOverflowSpec(o: u64, rs: seq<SimdSeed>)
    ensures var r := FoldOverflow(o, rs);
      && r <= o
      && (forall j :: 0 <= j < |rs| && rs[j].overflowed ==> r <= rs[j].seed)
      && (r == o || exists j :: 0 <= j < |rs| && rs[j].overflowed && r == rs[j].seed)
  {
    if |rs| > 0 {
      var init := rs[..|rs| - 1];
      FoldOverflowSpec(o, init);
      assert forall j :: 0 <= j < |init| ==> rs[j] == init[j];
    }
  }

  lemma {:induction false} FoldOverflowFrom(o: u64, rs: seq<SimdSeed>)
    ensures FoldOverflow(o, rs) == Min(o, FoldOverflow(UINT64_MAX, rs))
  {
    if |rs| > 0 {
      FoldOverflowFrom(o, rs[..|rs| - 1]);
    }
  }

  // ---------------------------------------------------------------- whole record

  lemma {:induction false} FoldAppend(loc: Locals, a: seq<SimdSeed>, b: seq<SimdSeed>)
    ensures Fold(loc, a + b) == Fold(Fold(loc, a), b)
  {
    if |b| > 0 {
      assert (a + b)[..|a + b| - 1] == a + b[..|b| - 1];
      FoldAppend(loc, a, b[..|b| - 1]);
    } else {
      assert a + b == a;
    }
  }

  /** Recording one more seed, field by field. */
  lemma {:induction false} FoldLast(loc: Locals, rs: seq<SimdSeed>, r: SimdSeed)
    ensures var f := Fold(loc, rs);
      Fold(loc, rs + [r]) == Locals(if r.counted then Max(f.maxPeak, r.peak) else f.maxPeak,
                                    BeatWide(f.longest, r),
                                    if r.overflowed then Min(f.firstOverflow, r.seed) else f.firstOverflow)
  {
    assert (rs + [r])[..|rs|] == rs;
  }
}
