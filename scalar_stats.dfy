/** What the scalar engine records per seed and how a worker folds those records into
    its ThreadResult (lib/collatz.cpp): a histogram of lengths clamped to HIST_SIZE - 1,
    the first seed of greatest length, the greatest peak and the smallest abandoned seed. */
module ScalarStats {
  import opened Words

  const HIST_SIZE: nat := 4096

  /** The outcome of one seed: its step count (truncated to 32 bits), its peak, and
      whether its walk was abandoned because 3n+1 passed INT64_MAX. */
  datatype SeedStat = SeedStat(seed: u64, len: u32, peak: u64, overflowed: bool)

  /** The longest chain so far and the seed it belongs to (max_length, max_seed). */
  datatype Longest = Longest(len: u32, seed: u64)

  /** The fields of a ThreadResult. */
  datatype Stats = Stats(hist: seq<nat>, longest: Longest, maxPeak: u64, firstOverflow: u64)

  /** A fresh ThreadResult: empty histogram, no longest seed, peak 0, no overflow. */
  function InitStats(): (st: Stats)
    ensures |st.hist| == HIST_SIZE
  {
    Stats(seq(HIST_SIZE, _ => 0), Longest(0, 0), 0, INT64_MAX)
  }

  /** The histogram slot of a length: lengths from HIST_SIZE - 1 upwards share the last. */
  function Bucket(len: u32): (b: nat)
    ensures b < HIST_SIZE
  {
    if len < HIST_SIZE then len else HIST_SIZE - 1
  }

  function TallyHist(h: seq<nat>, ss: seq<SeedStat>): (r: seq<nat>)
    requires |h| == HIST_SIZE
    ensures |r| == HIST_SIZE
  {
    if |ss| == 0 then h
    else
      var p := TallyHist(h, ss[..|ss| - 1]);
      var b := Bucket(ss[|ss| - 1].len);
      p[b := p[b] + 1]
  }

  /** `if (s > max_length) { max_length = s; max_seed = seed; }` */
  function Beat(l: Longest, s: SeedStat): Longest
  {
    if s.len > l.len then Longest(s.len, s.seed) else l
  }

  function TallyLongest(l: Longest, ss: seq<SeedStat>): Longest
  {
    if |ss| == 0 then l else Beat(TallyLongest(l, ss[..|ss| - 1]), ss[|ss| - 1])
  }

  function TallyPeak(p: u64, ss: seq<SeedStat>): u64
  {
    if |ss| == 0 then p else Max(TallyPeak(p, ss[..|ss| - 1]), ss[|ss| - 1].peak)
  }

  function TallyOverflow(o: u64, ss: seq<SeedStat>): u64
  {
    if |ss| == 0 then o
    else
      var q := TallyOverflow(o, ss[..|ss| - 1]);
      if ss[|ss| - 1].overflowed then Min(q, ss[|ss| - 1].seed) else q
  }

  /** A ThreadResult after recording the seeds ss, in order, on top of st. */
  function Tally(st: Stats, ss: seq<SeedStat>): (r: Stats)
    requires |st.hist| == HIST_SIZE
    ensures |r.hist| == HIST_SIZE
  {
    Stats(TallyHist(st.hist, ss), TallyLongest(st.longest, ss),
          TallyPeak(st.maxPeak, ss), TallyOverflow(st.firstOverflow, ss))
  }

  // ---------------------------------------------------------------- histogram

  function BucketsOf(ss: seq<SeedStat>): seq<nat>
  {
    seq(|ss|, j requires 0 <= j < |ss| => Bucket(ss[j].len))
  }

  /** Every histogram slot grows by exactly the number of recorded seeds whose length
      falls in it. */
  lemma {:induction false} TallyHistCounts(h: seq<nat>, ss: seq<SeedStat>)
    requires |h| == HIST_SIZE
    ensures forall b :: 0 <= b < HIST_SIZE ==> TallyHist(h, ss)[b] == h[b] + multiset(BucketsOf(ss))[b]
  {
    if |ss| > 0 {
      var init := ss[..|ss| - 1];
      TallyHistCounts(h, init);
      assert BucketsOf(ss) == BucketsOf(init) + [Bucket(ss[|ss| - 1].len)];
    }
  }

  function Sum(h: seq<nat>): nat
  {
    if |h| == 0 then 0 else Sum(h[..|h| - 1]) + h[|h| - 1]
  }

  lemma {:induction false} SumUpdate(h: seq<nat>, b: nat, v: nat)
    requires b < |h|
    ensures Sum(h[b := v]) + h[b] == Sum(h) + v
  {
    var n := |h| - 1;
    if b == n {
      assert h[b := v][..n] == h[..n];
    } else {
      assert h[b := v][..n] == h[..n][b := v];
      SumUpdate(h[..n], b, v);
    }
  }

  /** Every recorded seed lands in exactly one slot: the histogram total grows by |ss|. */
  lemma {:induction false} TallyHistTotal(h: seq<nat>, ss: seq<SeedStat>)
    requires |h| == HIST_SIZE
    ensures Sum(TallyHist(h, ss)) == Sum(h) + |ss|
  {
    if |ss| > 0 {
      var init := ss[..|ss| - 1];
      TallyHistTotal(h, init);
      var p := TallyHist(h, init);
      var b := Bucket(ss[|ss| - 1].len);
      SumUpdate(p, b, p[b] + 1);
    }
  }

  // ---------------------------------------------------------------- longest

  /** The longest seed is the FIRST seed of greatest length, and it replaces the starting
      record only when strictly longer; otherwise the record is kept. */
  lemma {:induction false} TallyLongestSpec(l: Longest, ss: seq<SeedStat>)
    ensures var r := TallyLongest(l, ss);
      && r.len >= l.len
      && (forall j :: 0 <= j < |ss| ==> ss[j].len <= r.len)
      && (r == l ||
          exists j :: 0 <= j < |ss| && r == Longest(ss[j].len, ss[j].seed) && l.len < r.len &&
            forall i :: 0 <= i < j ==> ss[i].len < r.len)
  {
    if |ss| > 0 {
      var init := ss[..|ss| - 1];
      TallyLongestSpec(l, init);
      var q := TallyLongest(l, init);
      var r := TallyLongest(l, ss);
      assert forall j :: 0 <= j < |init| ==> ss[j] == init[j];
      if r != q {
        assert r == Longest(ss[|ss| - 1].len, ss[|ss| - 1].seed);
        assert forall i :: 0 <= i < |ss| - 1 ==> ss[i].len < r.len;
      } else if r != l {
        var j :| 0 <= j < |init| && q == Longest(init[j].len, init[j].seed) && l.len < q.len &&
          forall i :: 0 <= i < j ==> init[i].len < q.len;
        assert ss[j] == init[j];
      }
    }
  }

  /** The longest record does not depend on where the fold starts, as long as the start
      loses to any seed that beats it: merging a thread's record from Longest(0, 0) into a
      running record gives what folding all its seeds into that record gives. */
  lemma {:induction false} TallyLongestFrom(l: Longest, ss: seq<SeedStat>)
    ensures TallyLongest(l, ss) == Beat(l, SeedStat(TallyLongest(Longest(0, 0), ss).seed, TallyLongest(Longest(0, 0), ss).len, 0, false))
  {
    if |ss| > 0 {
      TallyLongestFrom(l, ss[..|ss| - 1]);
    }
  }

  // ---------------------------------------------------------------- peak

  /** The peak record is the greatest of the start and every seed's peak. */
  lemma {:induction false} TallyPeakSpec(p: u64, ss: seq<SeedStat>)
    ensures var r := TallyPeak(p, ss);
      && r >= p
      && (forall j :: 0 <= j < |ss| ==> ss[j].peak <= r)
      && (r == p || exists j :: 0 <= j < |ss| && r == ss[j].peak)
  {
    if |ss| > 0 {
      var init := ss[..|ss| - 1];
      TallyPeakSpec(p, init);
      assert forall j :: 0 <= j < |init| ==> ss[j] == init[j];
    }
  }

  lemma {:induction false} TallyPeakFrom(p: u64, ss: seq<SeedStat>)
    ensures TallyPeak(p, ss) == Max(p, TallyPeak(0, ss))
  {
    if |ss| > 0 {
      TallyPeakFrom(p, ss[..|ss| - 1]);
    }
  }

  // ---------------------------------------------------------------- overflow

  /** The overflow record is the smallest of the start and every abandoned seed. */
  lemma {:induction false} TallyOverflowSpec(o: u64, ss: seq<SeedStat>)
    ensures var r := TallyOverflow(o, ss);
      && r <= o
      && (forall j :: 0 <= j < |ss| && ss[j].overflowed ==> r <= ss[j].seed)
      && (r == o || exists j :: 0 <= j < |ss| && ss[j].overflowed && r == ss[j].seed)
  {
    if |ss| > 0 {
      var init := ss[..|ss| - 1];
      TallyOverflowSpec(o, init);
      assert forall j :: 0 <= j < |init| ==> ss[j] == init[j];
    }
  }

  lemma {:induction false} TallyOverflowFrom(o: u64, o2: u64, ss: seq<SeedStat>)
    requires o <= o2
    ensures TallyOverflow(o, ss) == Min(o, TallyOverflow(o2, ss))
  {
    if |ss| > 0 {
      TallyOverflowFrom(o, o2, ss[..|ss| - 1]);
    }
  }

  /** Only the seeds and their overflow flags matter to the overflow record. */
  lemma {:induction false} TallyOverflowFlags(o: u64, a: seq<SeedStat>, b: seq<SeedStat>)
    requires |a| == |b|
    requires forall j :: 0 <= j < |a| ==> a[j].seed == b[j].seed && a[j].overflowed == b[j].overflowed
    ensures TallyOverflow(o, a) == TallyOverflow(o, b)
  {
    if |a| > 0 {
      TallyOverflowFlags(o, a[..|a| - 1], b[..|b| - 1]);
    }
  }

  /** Abandoning one more seed lowers the record to that seed if it is smaller. */
  lemma {:induction false} TallyOverflowRaise(o: u64, ss: seq<SeedStat>, j: nat)
    requires j < |ss| && !ss[j].overflowed
    ensures TallyOverflow(o, ss[j := ss[j].(overflowed := true)]) == Min(TallyOverflow(o, ss), ss[j].seed)
  {
    var n := |ss| - 1;
    var ss' := ss[j := ss[j].(overflowed := true)];
    if j == n {
      assert ss'[..n] == ss[..n];
    } else {
      assert ss'[..n] == ss[..n][j := ss[j].(overflowed := true)];
      TallyOverflowRaise(o, ss[..n], j);
    }
  }

  // ---------------------------------------------------------------- whole record

  /** Recording a single seed, field by field. */
  lemma {:induction false} TallyOne(st: Stats, s: SeedStat)
    requires |st.hist| == HIST_SIZE
    ensures Tally(st, [s]) == Stats(st.hist[Bucket(s.len) := st.hist[Bucket(s.len)] + 1], Beat(st.longest, s),
                                    Max(st.maxPeak, s.peak),
                                    if s.overflowed then Min(st.firstOverflow, s.seed) else st.firstOverflow)
  {
    assert [s][..0] == [];
    assert TallyHist(st.hist, [s]) == st.hist[Bucket(s.len) := st.hist[Bucket(s.len)] + 1];
    assert TallyLongest(st.longest, [s]) == Beat(st.longest, s);
    assert TallyPeak(st.maxPeak, [s]) == Max(st.maxPeak, s.peak);
    assert TallyOverflow(st.firstOverflow, [s]) == if s.overflowed then Min(st.firstOverflow, s.seed) else st.firstOverflow;
  }

  lemma {:induction false} TallyHistAppend(h: seq<nat>, a: seq<SeedStat>, b: seq<SeedStat>)
    requires |h| == HIST_SIZE
    ensures TallyHist(h, a + b) == TallyHist(TallyHist(h, a), b)
  {
    if |b| > 0 {
      assert (a + b)[..|a + b| - 1] == a + b[..|b| - 1];
      TallyHistAppend(h, a, b[..|b| - 1]);
    } else {
      assert a + b == a;
    }
  }

  lemma {:induction false} TallyRestAppend(st: Stats, a: seq<SeedStat>, b: seq<SeedStat>)
    ensures TallyLongest(st.longest, a + b) == TallyLongest(TallyLongest(st.longest, a), b)
    ensures TallyPeak(st.maxPeak, a + b) == TallyPeak(TallyPeak(st.maxPeak, a), b)
    ensures TallyOverflow(st.firstOverflow, a + b) == TallyOverflow(TallyOverflow(st.firstOverflow, a), b)
  {
    if |b| > 0 {
      assert (a + b)[..|a + b| - 1] == a + b[..|b| - 1];
      TallyRestAppend(st, a, b[..|b| - 1]);
    } else {
      assert a + b == a;
    }
  }

  /** Recording a then b is recording a + b: a worker may process its seeds in groups. */
  lemma {:induction false} TallyAppend(st: Stats, a: seq<SeedStat>, b: seq<SeedStat>)
    requires |st.hist| == HIST_SIZE
    ensures Tally(st, a + b) == Tally(Tally(st, a), b)
  {
    TallyHistAppend(st.hist, a, b);
    TallyRestAppend(st, a, b);
  }
}
