/** Fixed-bucket latency histograms: recording, percentiles, the sparse dump, and
    the fleet merge that adds dumps of several processes. */
module Histograms {

  const BUCKET_NS: int := 1000

  // ---- recording (histogram.h)

  datatype Hist = Hist(counts: seq<nat>, total: nat, overflow: nat, min: int, max: int)

  const NO_MIN: int := 0x7fff_ffff_ffff_ffff

  function Empty(n: nat): Hist {
    Hist(seq(n, _ => 0), 0, 0, NO_MIN, 0)
  }

  function Clamp(ns: int): nat {
    if ns < 0 then 0 else ns
  }

  /** The bucket of a sample; at or past the last one it overflows. */
  function Bucket(ns: int): nat {
    Clamp(ns) / BUCKET_NS
  }

  /** A bucket holds the samples of one microsecond; what is negative counts as zero. */
  lemma BucketIs(ns: int)
    ensures Bucket(ns) * BUCKET_NS <= (if ns < 0 then 0 else ns) < (Bucket(ns) + 1) * BUCKET_NS
  {
  }

  function Add(h: Hist, ns: int): Hist {
    var v, b := Clamp(ns), Bucket(ns);
    var g := h.(total := h.total + 1, max := if v > h.max then v else h.max, min := if v < h.min then v else h.min);
    if b >= |h.counts| then g.(overflow := h.overflow + 1)
    else g.(counts := h.counts[b := h.counts[b] + 1])
  }

  function Record(n: nat, samples: seq<int>): Hist {
    if samples == [] then Empty(n) else Add(Record(n, samples[..|samples| - 1]), samples[|samples| - 1])
  }

  class Histogram {
    const counts: array<nat>
    var total: nat
    var overflow: nat
    var min: int
    var max: int
    ghost var samples: seq<int>     // history

    ghost function Value(): Hist
      reads this, counts
    {
      Hist(counts[..], total, overflow, min, max)
    }

    ghost predicate Valid()
      reads this, counts
    {
      Value() == Record(counts.Length, samples)
    }

    constructor (buckets: nat)
      ensures Valid() && fresh(counts) && counts.Length == buckets && samples == []
    {
      counts := new nat[buckets](_ => 0);
      total, overflow, min, max, samples := 0, 0, NO_MIN, 0, [];
      new;
      assert counts[..] == seq(buckets, _ => 0);
    }

    /** add(): negative samples count as zero. */
    method AddSample(ns: int)
      requires Valid()
      modifies this, counts
      ensures Valid() && samples == old(samples) + [ns]
    {
      assert (samples + [ns])[..|samples|] == samples;
      Count(ns);
      samples := samples + [ns];
    }

    method Count(ns: int)
      modifies `total, `overflow, `min, `max, counts
      ensures Value() == Add(old(Value()), ns)
    {
      var v := if ns < 0 then 0 else ns;
      total := total + 1;
      max := if v > max then v else max;
      min := if v < min then v else min;
      var b := v / BUCKET_NS;
      if b >= counts.Length {
        overflow := overflow + 1;
      } else {
        counts[b] := counts[b] + 1;
      }
    }
  }

  // ---- what a histogram should say about its samples

  function InBucket(samples: seq<int>, b: nat): nat {
    if samples == [] then 0
    else InBucket(samples[..|samples| - 1], b) + if Bucket(samples[|samples| - 1]) == b then 1 else 0
  }

  function Over(samples: seq<int>, n: nat): nat {
    if samples == [] then 0
    else Over(samples[..|samples| - 1], n) + if Bucket(samples[|samples| - 1]) >= n then 1 else 0
  }

  ghost predicate IsMax(samples: seq<int>, m: int) {
    && (forall x :: x in samples ==> Clamp(x) <= m)
    && (m == 0 || exists x :: x in samples && Clamp(x) == m)
  }

  ghost predicate IsMin(samples: seq<int>, m: int) {
    && (forall x :: x in samples ==> m <= Clamp(x))
    && (exists x :: x in samples && Clamp(x) == m)
  }

  /** Counts, totals and extrema are those of the samples. */
  ghost predicate Describes(h: Hist, samples: seq<int>) {
    && h.total == |samples| && h.overflow == Over(samples, |h.counts|) && IsMax(samples, h.max)
    && (forall b :: 0 <= b < |h.counts| ==> h.counts[b] == InBucket(samples, b))
    && (samples != [] ==> IsMin(samples, h.min))
  }

  /** A 64-bit sample. */
  predicate Representable(ns: int) {
    ns <= NO_MIN
  }

  lemma MaxAppend(samples: seq<int>, m: int, x: int)
    requires IsMax(samples, m)
    ensures IsMax(samples + [x], if Clamp(x) > m then Clamp(x) else m)
  {
  }

  lemma MinAppend(samples: seq<int>, m: int, x: int)
    requires samples != [] ==> IsMin(samples, m)
    requires samples == [] ==> Clamp(x) <= m
    ensures IsMin(samples + [x], if samples == [] || Clamp(x) < m then Clamp(x) else m)
  {
  }

  lemma {:induction false} RecordDescribes(n: nat, samples: seq<int>)
    requires forall x :: x in samples ==> Representable(x)
    ensures |Record(n, samples).counts| == n && Describes(Record(n, samples), samples)
    ensures samples == [] ==> Record(n, samples).min == NO_MIN
  {
    if samples != [] {
      var init, x := samples[..|samples| - 1], samples[|samples| - 1];
      RecordDescribes(n, init);
      assert samples == init + [x];
      AddDescribes(Record(n, init), init, x);
    }
  }

  lemma AddDescribes(h: Hist, samples: seq<int>, x: int)
    requires Describes(h, samples) && (samples == [] ==> h.min == NO_MIN) && Representable(x)
    ensures Describes(Add(h, x), samples + [x])
  {
    assert (samples + [x])[..|samples|] == samples;
    MaxAppend(samples, h.max, x);
    MinAppend(samples, h.min, x);
  }

  // ---- percentiles (histogram.h)

  /** Samples in buckets below `b`. */
  function Below(counts: seq<nat>, b: nat): nat
    requires b <= |counts|
  {
    if b == 0 then 0 else Below(counts, b - 1) + counts[b - 1]
  }

  lemma {:induction false} BelowMonotone(counts: seq<nat>, a: nat, b: nat)
    requires a <= b <= |counts|
    ensures Below(counts, a) <= Below(counts, b)
    decreases b
  {
    if a < b {
      BelowMonotone(counts, a, b - 1);
    }
  }

  /** How many samples fall into buckets below `b`. */
  function SamplesBelow(samples: seq<int>, b: nat): nat {
    if samples == [] then 0
    else SamplesBelow(samples[..|samples| - 1], b) + if Bucket(samples[|samples| - 1]) < b then 1 else 0
  }

  lemma {:induction false} SamplesBelowStep(samples: seq<int>, b: nat)
    ensures SamplesBelow(samples, b + 1) == SamplesBelow(samples, b) + InBucket(samples, b)
  {
    if samples != [] {
      SamplesBelowStep(samples[..|samples| - 1], b);
    }
  }

  lemma {:induction false} SamplesBelowZero(samples: seq<int>)
    ensures SamplesBelow(samples, 0) == 0
  {
    if samples != [] {
      SamplesBelowZero(samples[..|samples| - 1]);
    }
  }

  lemma {:induction false} SamplesSplit(samples: seq<int>, n: nat)
    ensures SamplesBelow(samples, n) + Over(samples, n) == |samples|
  {
    if samples != [] {
      SamplesSplit(samples[..|samples| - 1], n);
    }
  }

  /** Cumulative bucket counts are ranks of the samples themselves. */
  lemma {:induction false} BelowCountsSamples(h: Hist, samples: seq<int>, b: nat)
    requires Describes(h, samples) && b <= |h.counts|
    ensures Below(h.counts, b) == SamplesBelow(samples, b)
  {
    if b == 0 {
      SamplesBelowZero(samples);
    } else {
      BelowCountsSamples(h, samples, b - 1);
      SamplesBelowStep(samples, b - 1);
    }
  }

  /** The scan of pct: the first bucket whose cumulative count reaches the rank. */
  method Scan(counts: seq<nat>, want: nat) returns (b: nat)
    ensures b <= |counts|
    ensures b < |counts| ==> want <= Below(counts, b + 1) && (Below(counts, b) < want || (want == 0 && b == 0))
    ensures b == |counts| > 0 ==> Below(counts, |counts|) < want
  {
    b := 0;
    var seen := 0;
    while b < |counts|
      invariant b <= |counts| && seen == Below(counts, b) && (b == 0 || seen < want)
    {
      seen := seen + counts[b];
      if seen >= want {
        return;
      }
      b := b + 1;
    }
  }

  /** The fraction of the total, untruncated. */
  function Fraction(p: real, total: nat): real {
    p * total as real
  }

  lemma FractionIs(p: real, total: nat)
    ensures Fraction(p, total) == p * total as real
  {
  }

  /** The rank pct looks for: the fraction of the total, truncated. */
  function Rank(p: real, total: nat): nat
    requires p >= 0.0
  {
    Fraction(p, total).Floor
  }

  /** The bucket holds the sample of rank `want`. */
  ghost predicate Brackets(samples: seq<int>, want: nat, b: nat) {
    SamplesBelow(samples, b) < want <= SamplesBelow(samples, b + 1)
  }

  /** The rank is 0 exactly when the fraction of the total is below one sample. */
  lemma RankIsZero(p: real, total: nat)
    requires p >= 0.0
    ensures Rank(p, total) == 0 <==> p * total as real < 1.0
  {
  }

  /** The bucket of a rank: beyond range exactly when the rank lies in the overflow,
      else the one that brackets it, and bucket 0 for rank 0. */
  method BucketOfRank(h: Hist, want: nat, ghost samples: seq<int>) returns (b: nat)
    requires |h.counts| > 0 && Describes(h, samples)
    ensures b <= |h.counts| && (b == |h.counts| <==> want > h.total - h.overflow)
    ensures b < |h.counts| && want > 0 ==> Brackets(samples, want, b)
    ensures want == 0 ==> b == 0 && h.overflow <= h.total
  {
    b := Scan(h.counts, want);
    SamplesSplit(samples, |h.counts|);
    BelowCountsSamples(h, samples, |h.counts|);
    if b < |h.counts| {
      BelowCountsSamples(h, samples, b);
      BelowCountsSamples(h, samples, b + 1);
      BelowMonotone(h.counts, b + 1, |h.counts|);
    }
  }

  /** A whole number is at most a truncated one exactly when it is at most the whole. */
  lemma FloorReaches(x: real, k: int)
    ensures k <= x.Floor <==> k as real <= x
  {
    if k > x.Floor {
      assert k as real >= (x.Floor + 1) as real;
    } else {
      assert k as real <= x.Floor as real;
    }
  }

  /** What the bucket of a rank says of the fraction it was truncated from. */
  lemma CutOfRank(cut: real, samples: seq<int>, n: nat, k: nat)
    requires cut >= 0.0 && k <= n
    requires k == n <==> cut.Floor > |samples| - Over(samples, n)
    requires k < n && cut.Floor > 0 ==> Brackets(samples, cut.Floor, k)
    requires cut.Floor == 0 ==> k == 0 < n
    ensures k == n <==> cut >= (|samples| - Over(samples, n)) as real + 1.0
    ensures k < n && cut >= 1.0 ==>
              SamplesBelow(samples, k) as real + 1.0 <= cut < SamplesBelow(samples, k + 1) as real + 1.0
    ensures cut < 1.0 ==> k == 0 < n
  {
    FloorReaches(cut, 1);
    FloorReaches(cut, |samples| - Over(samples, n) + 1);
    FloorReaches(cut, SamplesBelow(samples, k) + 1);
    FloorReaches(cut, SamplesBelow(samples, k + 1) + 1);
  }

  /** pct on a recorded histogram, in terms of the fraction and the samples. It is beyond
      range exactly when the fraction exceeds the samples in range by at least one. Else,
      if the fraction reaches one sample, the answer is the one bucket below which fewer
      samples lie than the fraction counts, and up to which it is counted out; and below
      one sample it is 0 (`RankIsZero`). */
  method Percentile(h: Hist, p: real, ghost samples: seq<int>) returns (ns: int, beyond: bool, ghost b: nat)
    requires |h.counts| > 0 && Describes(h, samples) && p >= 0.0
    ensures samples == [] ==> ns == 0 && !beyond
    ensures samples != [] ==> (beyond <==> Rank(p, h.total) > h.total - h.overflow)
    ensures ns == b * BUCKET_NS && (if beyond then b == |h.counts| else b < |h.counts|)
    ensures samples != [] && !beyond ==> (Brackets(samples, Rank(p, h.total), b) <==> Rank(p, h.total) > 0)
    ensures samples != [] && Rank(p, h.total) == 0 ==> ns == 0 && !beyond
    ensures samples != [] ==>
              (beyond <==> Fraction(p, |samples|) >= (|samples| - Over(samples, |h.counts|)) as real + 1.0)
    ensures samples != [] && !beyond && Fraction(p, |samples|) >= 1.0 ==>
              && SamplesBelow(samples, b) as real + 1.0 <= Fraction(p, |samples|)
              && Fraction(p, |samples|) < SamplesBelow(samples, b + 1) as real + 1.0
    ensures samples != [] && Fraction(p, |samples|) < 1.0 ==> ns == 0 && !beyond
  {
    if h.total == 0 {
      return 0, false, 0;
    }
    var k := BucketOfRank(h, Rank(p, h.total), samples);
    CutOfRank(Fraction(p, h.total), samples, |h.counts|, k);
    return k * BUCKET_NS, k == |h.counts|, k;
  }

  /** The median of one sample of five microseconds is reported as 0. */
  method MedianOfOne(buckets: nat) returns (ns: int, beyond: bool)
    requires buckets > 5
    ensures ns == 0 && !beyond && Bucket(5000) == 5 && !Brackets([5000], 1, ns / BUCKET_NS)
  {
    var h := new Histogram(buckets);
    h.AddSample(5000);
    RecordDescribes(buckets, [5000]);
    assert h.samples == [5000];
    RankIsZero(0.5, 1);
    ghost var b;
    ns, beyond, b := Percentile(Hist(h.counts[..], h.total, h.overflow, h.min, h.max), 0.5, [5000]);
    assert [5000][..0] == [];
    assert SamplesBelow([5000], 1) == SamplesBelow([], 1) + 0;
  }

  // ---- the sparse dump (histogram.cpp) and its parse (merge.py)

  datatype Dump = Dump(total: nat, overflow: nat, min: int, max: int, lines: seq<(nat, nat)>)

  /** One line per occupied bucket, in order. */
  function Lines(counts: seq<nat>): seq<(nat, nat)> {
    if counts == [] then []
    else
      var b := |counts| - 1;
      Lines(counts[..b]) + if counts[b] > 0 then [(b, counts[b])] else []
  }

  method DumpHistogram(h: Hist) returns (d: Dump)
    ensures d == Dump(h.total, h.overflow, if h.total > 0 then h.min else 0, h.max, Lines(h.counts))
  {
    var lines := [];
    for b := 0 to |h.counts|
      invariant lines == Lines(h.counts[..b])
    {
      assert h.counts[..b + 1][..b] == h.counts[..b];
      if h.counts[b] > 0 {
        lines := lines + [(b, h.counts[b])];
      }
    }
    assert h.counts[..|h.counts|] == h.counts;
    d := Dump(h.total, h.overflow, if h.total > 0 then h.min else 0, h.max, lines);
  }

  function Get(counts: map<nat, nat>, b: nat): nat {
    if b in counts then counts[b] else 0
  }

  /** The Counter a parse of the lines builds on top of `counts`. */
  function Tally(counts: map<nat, nat>, lines: seq<(nat, nat)>): map<nat, nat> {
    if lines == [] then counts
    else
      var c := Tally(counts, lines[..|lines| - 1]);
      var line := lines[|lines| - 1];
      c[line.0 := Get(c, line.0) + line.1]
  }

  lemma {:induction false} TallyConcat(counts: map<nat, nat>, xs: seq<(nat, nat)>, ys: seq<(nat, nat)>)
    ensures Tally(counts, xs + ys) == Tally(Tally(counts, xs), ys)
    decreases |ys|
  {
    if ys == [] {
      assert xs + ys == xs;
    } else {
      assert (xs + ys)[..|xs + ys| - 1] == xs + ys[..|ys| - 1];
      TallyConcat(counts, xs, ys[..|ys| - 1]);
    }
  }

  /** Parsing the dump recovers every bucket, empty ones included. */
  lemma {:induction false} LinesRoundTrip(counts: map<nat, nat>, h: seq<nat>, b: nat)
    ensures Get(Tally(counts, Lines(h)), b) == Get(counts, b) + if b < |h| then h[b] else 0
    decreases |h|
  {
    if h != [] {
      var k := |h| - 1;
      var last := if h[k] > 0 then [(k, h[k])] else [];
      TallyConcat(counts, Lines(h[..k]), last);
      LinesRoundTrip(counts, h[..k], b);
    }
  }

  // ---- the merge (merge.py)

  datatype Option = None | Some(ns: int)

  datatype Merged = Merged(counts: map<nat, nat>, total: nat, overflow: nat, min: Option, max: int)

  const NOTHING: Merged := Merged(map[], 0, 0, None, 0)

  function Merge(m: Merged, d: Dump): Merged {
    Merged(Tally(m.counts, d.lines), m.total + d.total, m.overflow + d.overflow,
           if d.total == 0 then m.min
           else if m.min == None || d.min < m.min.ns then Some(d.min) else m.min,
           if d.max > m.max then d.max else m.max)
  }

  /** Counter.update: the counts of two counters, added. */
  function AddCounts(a: map<nat, nat>, b: map<nat, nat>): map<nat, nat> {
    map k | k in a.Keys + b.Keys :: Get(a, k) + Get(b, k)
  }

  lemma {:induction false} TallyIsSum(a: map<nat, nat>, lines: seq<(nat, nat)>)
    ensures Tally(a, lines) == AddCounts(a, Tally(map[], lines))
  {
    if lines != [] {
      TallyIsSum(a, lines[..|lines| - 1]);
    }
  }

  /** The hist block of parse(). */
  method ParseLines(lines: seq<(nat, nat)>) returns (counts: map<nat, nat>)
    ensures counts == Tally(map[], lines)
  {
    counts := map[];
    for i := 0 to |lines|
      invariant counts == Tally(map[], lines[..i])
    {
      assert lines[..i + 1][..i] == lines[..i];
      var (b, c) := lines[i];
      counts := counts[b := Get(counts, b) + c];
    }
    assert lines[..|lines|] == lines;
  }

  /** The fleet's histogram, which merges dumps as they are parsed. */
  class Fleet {
    var counts: map<nat, nat>
    var total: nat
    var overflow: nat
    var min: Option
    var max: int

    ghost function Value(): Merged
      reads this
    {
      Merged(counts, total, overflow, min, max)
    }

    constructor ()
      ensures Value() == NOTHING
    {
      counts, total, overflow, min, max := map[], 0, 0, None, 0;
    }

    method MergeDump(d: Dump)
      modifies this
      ensures Value() == Merge(old(Value()), d)
    {
      var parsed := ParseLines(d.lines);
      TallyIsSum(counts, d.lines);
      counts := AddCounts(counts, parsed);
      total, overflow := total + d.total, overflow + d.overflow;
      if d.max > max {
        max := d.max;
      }
      if d.total > 0 {
        min := if min == None || d.min < min.ns then Some(d.min) else min;
      }
    }
  }

  function DumpOf(n: nat, samples: seq<int>): Dump {
    var h := Record(n, samples);
    Dump(h.total, h.overflow, if h.total > 0 then h.min else 0, h.max, Lines(h.counts))
  }

  function MergeAll(n: nat, parts: seq<seq<int>>): Merged {
    if parts == [] then NOTHING
    else Merge(MergeAll(n, parts[..|parts| - 1]), DumpOf(n, parts[|parts| - 1]))
  }

  /** A merged histogram says of all samples what one histogram would. */
  ghost predicate Tells(m: Merged, n: nat, samples: seq<int>) {
    && m.total == |samples| && m.overflow == Over(samples, n) && IsMax(samples, m.max)
    && (forall b :: 0 <= b < n ==> Get(m.counts, b) == InBucket(samples, b))
    && Occupied(m.counts, n)
    && (m.min == None <==> samples == []) && (samples != [] ==> IsMin(samples, m.min.ns))
  }

  lemma {:induction false} CountsConcat(xs: seq<int>, ys: seq<int>, b: nat)
    ensures InBucket(xs + ys, b) == InBucket(xs, b) + InBucket(ys, b)
    ensures Over(xs + ys, b) == Over(xs, b) + Over(ys, b)
    decreases |ys|
  {
    if ys == [] {
      assert xs + ys == xs;
    } else {
      assert (xs + ys)[..|xs + ys| - 1] == xs + ys[..|ys| - 1];
      CountsConcat(xs, ys[..|ys| - 1], b);
    }
  }

  lemma MaxConcat(xs: seq<int>, ys: seq<int>, m: int, k: int)
    requires IsMax(xs, m) && IsMax(ys, k)
    ensures IsMax(xs + ys, if k > m then k else m)
  {
  }

  /** Only occupied buckets, below `n`. */
  ghost predicate Occupied(counts: map<nat, nat>, n: nat) {
    forall b :: b in counts ==> b < n && counts[b] > 0
  }

  /** A dump lists occupied buckets only, each once, in ascending order. */
  lemma {:induction false} LinesOccupied(counts: seq<nat>)
    ensures forall i :: 0 <= i < |Lines(counts)| ==> Lines(counts)[i].0 < |counts| && Lines(counts)[i].1 > 0
    ensures forall i, j :: 0 <= i < j < |Lines(counts)| ==> Lines(counts)[i].0 < Lines(counts)[j].0
  {
    if counts != [] {
      LinesOccupied(counts[..|counts| - 1]);
    }
  }

  lemma {:induction false} TallyOccupied(counts: map<nat, nat>, lines: seq<(nat, nat)>, n: nat)
    requires Occupied(counts, n) && forall i :: 0 <= i < |lines| ==> lines[i].0 < n && lines[i].1 > 0
    ensures Occupied(Tally(counts, lines), n)
  {
    if lines != [] {
      TallyOccupied(counts, lines[..|lines| - 1], n);
    }
  }

  lemma MergeTells(n: nat, m: Merged, xs: seq<int>, ys: seq<int>)
    requires Tells(m, n, xs) && forall y :: y in ys ==> Representable(y)
    ensures Tells(Merge(m, DumpOf(n, ys)), n, xs + ys)
  {
    RecordDescribes(n, ys);
    var h := Record(n, ys);
    forall b | 0 <= b < n
      ensures Get(Tally(m.counts, Lines(h.counts)), b) == InBucket(xs + ys, b)
    {
      LinesRoundTrip(m.counts, h.counts, b);
      CountsConcat(xs, ys, b);
    }
    CountsConcat(xs, ys, n);
    MaxConcat(xs, ys, m.max, h.max);
    MergedMin(m, xs, ys, h);
    LinesOccupied(h.counts);
    TallyOccupied(m.counts, Lines(h.counts), n);
  }

  lemma MergedMin(m: Merged, xs: seq<int>, ys: seq<int>, h: Hist)
    requires (m.min == None <==> xs == []) && (xs != [] ==> IsMin(xs, m.min.ns))
    requires h.total == |ys| && (ys != [] ==> IsMin(ys, h.min))
    ensures var min := if h.total == 0 then m.min
                       else if m.min == None || h.min < m.min.ns then Some(h.min) else m.min;
            (min == None <==> xs + ys == []) && (xs + ys != [] ==> IsMin(xs + ys, min.ns))
  {
  }

  function Pool(parts: seq<seq<int>>): seq<int> {
    if parts == [] then [] else Pool(parts[..|parts| - 1]) + parts[|parts| - 1]
  }

  lemma {:induction false} MergeAllTells(n: nat, parts: seq<seq<int>>)
    requires forall p, x :: p in parts && x in p ==> Representable(x)
    ensures Tells(MergeAll(n, parts), n, Pool(parts))
  {
    if parts != [] {
      var init, last := parts[..|parts| - 1], parts[|parts| - 1];
      MergeAllTells(n, init);
      MergeTells(n, MergeAll(n, init), Pool(init), last);
    }
  }

  // ---- order does not matter

  lemma SameWithout(init: seq<int>, front: seq<int>, back: seq<int>, x: int)
    requires multiset(init + [x]) == multiset(front + ([x] + back))
    ensures multiset(init) == multiset(front + back)
  {
    assert multiset(init + [x]) == multiset(init) + multiset{x};
    assert multiset(front + ([x] + back)) == multiset(front + back) + multiset{x};
    assert multiset(init) == multiset(init + [x]) - multiset{x};
    assert multiset(front + back) == (multiset(front + back) + multiset{x}) - multiset{x};
  }

  lemma {:induction false} CountsPermute(xs: seq<int>, ys: seq<int>, b: nat)
    requires multiset(xs) == multiset(ys)
    ensures InBucket(xs, b) == InBucket(ys, b) && Over(xs, b) == Over(ys, b) && |xs| == |ys|
    decreases |xs|
  {
    assert |multiset(xs)| == |xs| && |multiset(ys)| == |ys|;
    if xs != [] {
      var init, x := xs[..|xs| - 1], xs[|xs| - 1];
      assert xs == init + [x];
      assert x in multiset(ys);
      var k :| 0 <= k < |ys| && ys[k] == x;
      var front, back := ys[..k], ys[k + 1..];
      assert ys == front + ([x] + back);
      SameWithout(init, front, back, x);
      CountsPermute(init, front + back, b);
      CountsConcat(front, [x] + back, b);
      CountsConcat([x], back, b);
      CountsConcat(front, back, b);
      CountsConcat(init, [x], b);
    }
  }

  lemma TellsPermute(m: Merged, n: nat, xs: seq<int>, ys: seq<int>)
    requires Tells(m, n, xs) && multiset(xs) == multiset(ys)
    ensures Tells(m, n, ys)
  {
    forall b | 0 <= b < n
      ensures InBucket(xs, b) == InBucket(ys, b)
    {
      CountsPermute(xs, ys, b);
    }
    CountsPermute(xs, ys, n);
    assert forall x :: x in xs <==> x in multiset(xs);
    assert forall x :: x in ys <==> x in multiset(ys);
  }

  /** The fleet merge: dumping and merging the histograms of any number of
      processes, in any order, reports the buckets, totals and extrema that one
      histogram fed all the samples reports. */
  lemma MergeIsOneHistogram(n: nat, parts: seq<seq<int>>, all: seq<int>)
    requires multiset(Pool(parts)) == multiset(all)
    requires forall p, x :: p in parts && x in p ==> Representable(x)
    requires forall x :: x in all ==> Representable(x)
    ensures var m, h := MergeAll(n, parts), Record(n, all);
            && |h.counts| == n && (forall b :: 0 <= b < n ==> Get(m.counts, b) == h.counts[b])
            && m.total == h.total && m.overflow == h.overflow && m.max == h.max
            && (if all == [] then m.min == None else m.min == Some(h.min))
  {
    MergeAllTells(n, parts);
    TellsPermute(MergeAll(n, parts), n, Pool(parts), all);
    RecordDescribes(n, all);
  }

  // ---- percentiles of the merge (merge.py)

  function CountedBelow(counts: map<nat, nat>, b: nat): nat {
    if b == 0 then 0 else CountedBelow(counts, b - 1) + Get(counts, b - 1)
  }

  lemma {:induction false} CountedBelowSamples(m: Merged, n: nat, samples: seq<int>, b: nat)
    requires Tells(m, n, samples) && b <= n
    ensures CountedBelow(m.counts, b) == SamplesBelow(samples, b)
  {
    if b == 0 {
      SamplesBelowZero(samples);
    } else {
      CountedBelowSamples(m, n, samples, b - 1);
      SamplesBelowStep(samples, b - 1);
    }
  }

  /** The highest occupied bucket, or 0. */
  ghost predicate IsTop(counts: map<nat, nat>, b: nat) {
    if counts == map[] then b == 0 else b in counts && forall k :: k in counts ==> k <= b
  }

  /** The scan of Hist.pct against an untruncated rank. */
  method MergedScan(m: Merged, n: nat, want: real, ghost samples: seq<int>) returns (b: nat, beyond: bool)
    requires Tells(m, n, samples)
    ensures samples == [] ==> b == 0 && !beyond
    ensures samples != [] && want > 0.0 ==> (beyond <==> want > (m.total - m.overflow) as real)
    ensures samples != [] && want <= 0.0 ==> (beyond <==> m.counts == map[])
    ensures beyond ==> IsTop(m.counts, b)
    ensures samples != [] && !beyond ==> b < n && b in m.counts && want <= SamplesBelow(samples, b + 1) as real
    ensures samples != [] && !beyond && want > 0.0 ==> SamplesBelow(samples, b) as real < want
    ensures samples != [] && !beyond && want <= 0.0 ==> forall a :: 0 <= a < b ==> a !in m.counts
  {
    b, beyond := 0, false;
    if m.total == 0 {
      return;
    }
    SamplesSplit(samples, n);
    CountedBelowSamples(m, n, samples, n);
    var seen, k, top: nat := 0, 0, 0;
    while k < n
      invariant k <= n && seen == CountedBelow(m.counts, k) && (want > 0.0 ==> seen as real < want)
      invariant want <= 0.0 ==> forall a :: 0 <= a < k ==> a !in m.counts
      invariant (forall a :: 0 <= a < k && a in m.counts ==> a <= top)
                && (top in m.counts || forall a :: 0 <= a < k ==> a !in m.counts)
      invariant top == 0 || top in m.counts
    {
      if k in m.counts {
        seen, top := seen + m.counts[k], k;
        if seen as real >= want {
          CountedBelowSamples(m, n, samples, k);
          CountedBelowSamples(m, n, samples, k + 1);
          CountedMonotone(m.counts, k + 1, n);
          return k, false;
        }
      }
      k := k + 1;
    }
    NoKeys(m.counts, n);
    b, beyond := top, true;
  }

  /** Hist.pct: the occupied buckets in order, against the untruncated fraction of the
      samples. Beyond range, exactly when that fraction exceeds the samples in range, it
      names the highest occupied bucket; a fraction of 0 or less names the lowest. */
  method MergedPercentile(m: Merged, n: nat, p: real, ghost samples: seq<int>)
    returns (ns: int, beyond: bool, ghost b: nat)
    requires Tells(m, n, samples)
    ensures ns == b * BUCKET_NS && (samples == [] ==> b == 0 && !beyond)
    ensures samples != [] && Fraction(p, |samples|) > 0.0 ==>
              (beyond <==> Fraction(p, |samples|) > (|samples| - Over(samples, n)) as real)
    ensures samples != [] && Fraction(p, |samples|) <= 0.0 ==> (beyond <==> m.counts == map[])
    ensures beyond ==> IsTop(m.counts, b)
    ensures samples != [] && !beyond ==>
              b < n && b in m.counts && Fraction(p, |samples|) <= SamplesBelow(samples, b + 1) as real
    ensures samples != [] && !beyond && Fraction(p, |samples|) > 0.0 ==>
              SamplesBelow(samples, b) as real < Fraction(p, |samples|)
    ensures samples != [] && !beyond && Fraction(p, |samples|) <= 0.0 ==> forall a :: 0 <= a < b ==> a !in m.counts
  {
    ns, beyond, b := 0, false, 0;
    if m.total > 0 {
      var bucket;
      bucket, beyond := MergedScan(m, n, Fraction(p, m.total), samples);
      ns, b := bucket * BUCKET_NS, bucket;
    }
  }

  lemma NoKeys(counts: map<nat, nat>, n: nat)
    requires forall k :: k in counts ==> k < n
    ensures counts == map[] <==> forall k :: 0 <= k < n ==> k !in counts
  {
    if forall k :: 0 <= k < n ==> k !in counts {
      assert counts.Keys == {};
    }
  }

  lemma {:induction false} CountedMonotone(counts: map<nat, nat>, a: nat, b: nat)
    requires a <= b
    ensures CountedBelow(counts, a) <= CountedBelow(counts, b)
    decreases b
  {
    if a < b {
      CountedMonotone(counts, a, b - 1);
    }
  }
}
