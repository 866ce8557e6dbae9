/** The statistical summary of a profiled job (crates/blueprint-profiling/src/lib.rs). */
module Profiles {
  import opened Bytes
  import opened Totals

  const TWO_32: nat := 0x1_0000_0000
  const MEGABYTE: nat := 0x10_0000

  /** One run: how long it took, and the memory it peaked at. */
  datatype Measurement = Measurement(millis: nat, peakBytes: u64)

  datatype JobProfile = JobProfile(avgMillis: nat, p95Millis: nat, p99Millis: nat, peakMb: nat, sampleSize: nat)

  // ---- nearest rank ----

  function Below(v: nat): nat -> nat
  {
    x => if x < v then 1 else 0
  }

  function AtMost(v: nat): nat -> nat
  {
    x => if x <= v then 1 else 0
  }

  /** `v` is the k-th smallest sample: at least k samples reach no higher, fewer than k lie strictly below. */
  ghost predicate IsRank(s: seq<nat>, k: nat, v: nat)
  {
    v in s && Total(s, Below(v)) < k <= Total(s, AtMost(v))
  }

  lemma RankUnique(s: seq<nat>, k: nat, v: nat, w: nat)
    requires IsRank(s, k, v) && IsRank(s, k, w)
    ensures v == w
  {
    if v < w {
      TotalMonotone(s, AtMost(v), Below(w));
    } else if w < v {
      TotalMonotone(s, AtMost(w), Below(v));
    }
  }

  lemma RankMonotone(s: seq<nat>, k: nat, v: nat, l: nat, w: nat)
    requires IsRank(s, k, v) && IsRank(s, l, w) && k <= l
    ensures v <= w
  {
    if w < v {
      TotalMonotone(s, AtMost(w), Below(v));
    }
  }

  lemma RankOfMultiset(s: seq<nat>, t: seq<nat>, k: nat, v: nat)
    requires multiset(s) == multiset(t) && IsRank(s, k, v)
    ensures IsRank(t, k, v)
  {
    TotalOfMultiset(s, t, Below(v));
    TotalOfMultiset(s, t, AtMost(v));
    assert v in multiset(t);
  }

  predicate Ordered(s: seq<nat>)
  {
    forall i, j :: 0 <= i < j < |s| ==> s[i] <= s[j]
  }

  lemma OrderedRank(s: seq<nat>, k: nat)
    requires Ordered(s) && 1 <= k <= |s|
    ensures IsRank(s, k, s[k - 1])
  {
    var v := s[k - 1];
    assert s == s[..k - 1] + s[k - 1..] && s == s[..k] + s[k..];
    TotalConcat(s[..k - 1], s[k - 1..], Below(v));
    TotalBounds(s[..k - 1], Below(v), 0, 1);
    TotalBounds(s[k - 1..], Below(v), 0, 0);
    TotalConcat(s[..k], s[k..], AtMost(v));
    TotalBounds(s[..k], AtMost(v), 1, 1);
  }

  // ---- the summary ----

  /** Milliseconds are cut to 64 bits. */
  function Millis(): Measurement -> nat
  {
    (m: Measurement) => m.millis % TWO_64
  }

  function PeakBytes(): Measurement -> nat
  {
    (m: Measurement) => m.peakBytes
  }

  function Map<T(!new)>(s: seq<T>, f: T -> nat): (r: seq<nat>)
    ensures |r| == |s| && forall i :: 0 <= i < |s| ==> r[i] == f(s[i])
  {
    seq(|s|, i requires 0 <= i < |s| => f(s[i]))
  }

  function Durations(ms: seq<Measurement>): seq<nat>
  {
    Map(ms, Millis())
  }

  function Memories(ms: seq<Measurement>): seq<nat>
  {
    Map(ms, PeakBytes())
  }

  function Same(): nat -> nat
  {
    x => x
  }

  lemma PercentOf(n: nat, percent: nat)
    requires n > 0
    ensures 1 <= percent <= 100 ==> 1 <= n * percent <= n * 100
  {
    if 1 <= percent <= 100 {
      MulMonotone(1, percent, n);
      MulMonotone(percent, 100, n);
    }
  }

  /** The position `percentile` picks, counted from 1: the rank rounded up, kept within the list. */
  function Rank(n: nat, percent: nat): (k: nat)
    requires n > 0
    ensures 1 <= k <= n
    ensures 1 <= percent <= 100 ==> 100 * (k - 1) < n * percent <= 100 * k
  {
    PercentOf(n, percent);
    var k := (n * percent + 99) / 100;
    if k == 0 then 1 else if k > n then n else k
  }

  /** The average, from a sum that wraps at 64 bits. */
  function Average(d: seq<nat>): nat
  {
    if d == [] then 0 else Total(d, Same()) % TWO_64 / |d|
  }

  ghost predicate IsPercentile(d: seq<nat>, percent: nat, v: nat)
  {
    if d == [] then v == 0 else IsRank(d, Rank(|d|, percent), v)
  }

  /** `v` is the largest element, or 0 when there is none. */
  ghost predicate IsPeak(m: seq<nat>, v: nat)
  {
    (if m == [] then v == 0 else v in m) && forall x :: x in m ==> x <= v
  }

  ghost predicate Summarizes(p: JobProfile, ms: seq<Measurement>, peak: nat)
  {
    && p.avgMillis == Average(Durations(ms))
    && IsPercentile(Durations(ms), 95, p.p95Millis)
    && IsPercentile(Durations(ms), 99, p.p99Millis)
    && IsPeak(Memories(ms), peak)
    && p.peakMb == peak / MEGABYTE % TWO_32
  }

  method ComputeStatistics(ms: seq<Measurement>, sampleSize: nat) returns (p: JobProfile, peak: nat)
    ensures Summarizes(p, ms, peak) && p.sampleSize == sampleSize
    ensures ms == [] ==> p == JobProfile(0, 0, 0, 0, sampleSize)
  {
    var durations := Sort(Durations(ms));
    var memories := Sort(Memories(ms));
    SameSize(durations, Durations(ms));
    SameSize(memories, Memories(ms));
    var avg := Average(durations);
    TotalOfMultiset(durations, Durations(ms), Same());
    var p95 := Percentile(durations, 95, Durations(ms));
    var p99 := Percentile(durations, 99, Durations(ms));
    peak := if memories == [] then 0 else memories[|memories| - 1];
    OrderedPeak(memories, Memories(ms));
    p := JobProfile(avg, p95, p99, peak / MEGABYTE % TWO_32, sampleSize);
  }

  /** The nearest-rank percentile of the samples that `ordered` sorts. */
  method Percentile(ordered: seq<nat>, percent: nat, ghost d: seq<nat>) returns (v: nat)
    requires Ordered(ordered) && multiset(ordered) == multiset(d)
    ensures IsPercentile(d, percent, v)
  {
    SameSize(ordered, d);
    if ordered == [] {
      return 0;
    }
    var index := (|ordered| * percent + 99) / 100;
    index := if index == 0 then 0 else index - 1;
    index := if index < |ordered| - 1 then index else |ordered| - 1;
    OrderedRank(ordered, index + 1);
    RankOfMultiset(ordered, d, index + 1, ordered[index]);
    return ordered[index];
  }

  lemma OrderedPeak(s: seq<nat>, t: seq<nat>)
    requires Ordered(s) && multiset(s) == multiset(t)
    ensures IsPeak(t, if s == [] then 0 else s[|s| - 1])
  {
    SameSize(s, t);
    forall x | x in t ensures x in s {
      assert x in multiset(s);
    }
    if s != [] {
      assert s[|s| - 1] in multiset(t);
    }
  }

  /** Sorting, specified by order and content only. */
  method Sort(s: seq<nat>) returns (r: seq<nat>)
    ensures Ordered(r) && multiset(r) == multiset(s)
  {
    r := [];
    for i := 0 to |s|
      invariant Ordered(r) && multiset(r) == multiset(s[..i])
    {
      var k := 0;
      while k < |r| && r[k] <= s[i]
        invariant 0 <= k <= |r| && forall j :: 0 <= j < k ==> r[j] <= s[i]
      {
        k := k + 1;
      }
      InsertKeeps(r, k, s[i]);
      assert s[..i + 1] == s[..i] + [s[i]];
      r := r[..k] + [s[i]] + r[k..];
    }
    assert s[..|s|] == s;
  }

  lemma InsertKeeps(r: seq<nat>, k: nat, x: nat)
    requires Ordered(r) && k <= |r| && (forall j :: 0 <= j < k ==> r[j] <= x) && (k < |r| ==> x <= r[k])
    ensures Ordered(r[..k] + [x] + r[k..]) && multiset(r[..k] + [x] + r[k..]) == multiset(r) + multiset{x}
  {
    assert r == r[..k] + r[k..];
  }

  // ---- what the summary promises ----

  function Compose<T(!new)>(f: T -> nat, g: nat -> nat): T -> nat
  {
    (x: T) => g(f(x))
  }

  lemma {:induction false} TotalMap<T(!new)>(s: seq<T>, f: T -> nat, g: nat -> nat)
    ensures Total(Map(s, f), g) == Total(s, Compose(f, g))
  {
    if s != [] {
      assert Map(s, f)[1..] == Map(s[1..], f);
      TotalMap(s[1..], f, g);
    }
  }

  /** Totals over the mapped runs do not depend on the order of the runs. */
  lemma TotalMapOfMultiset<T(!new)>(s: seq<T>, t: seq<T>, f: T -> nat, g: nat -> nat)
    requires multiset(s) == multiset(t)
    ensures Total(Map(s, f), g) == Total(Map(t, f), g)
  {
    TotalMap(s, f, g);
    TotalMap(t, f, g);
    TotalOfMultiset(s, t, Compose(f, g));
  }

  lemma MapMember<T(!new)>(s: seq<T>, t: seq<T>, f: T -> nat, v: nat)
    requires multiset(s) == multiset(t) && v in Map(s, f)
    ensures v in Map(t, f)
  {
    var i :| 0 <= i < |s| && Map(s, f)[i] == v;
    assert s[i] in multiset(t);
    var j :| 0 <= j < |t| && t[j] == s[i];
    assert Map(t, f)[j] == v;
  }

  lemma RankOfRuns(s: seq<Measurement>, t: seq<Measurement>, percent: nat, v: nat, w: nat)
    requires multiset(s) == multiset(t)
    requires IsPercentile(Durations(s), percent, v) && IsPercentile(Durations(t), percent, w)
    ensures v == w
  {
    SameSize(s, t);
    if s != [] {
      MapMember(s, t, Millis(), v);
      TotalMapOfMultiset(s, t, Millis(), Below(v));
      TotalMapOfMultiset(s, t, Millis(), AtMost(v));
      RankUnique(Durations(t), Rank(|t|, percent), v, w);
    }
  }

  lemma PeakOfRuns(s: seq<Measurement>, t: seq<Measurement>, v: nat, w: nat)
    requires multiset(s) == multiset(t) && IsPeak(Memories(s), v) && IsPeak(Memories(t), w)
    ensures v == w
  {
    SameSize(s, t);
    if s != [] {
      MapMember(s, t, PeakBytes(), v);
      MapMember(t, s, PeakBytes(), w);
    }
  }

  /** The order in which the runs were measured does not show in the profile. */
  lemma OrderIrrelevant(s: seq<Measurement>, t: seq<Measurement>, p: JobProfile, peak: nat, q: JobProfile, peak': nat)
    requires multiset(s) == multiset(t) && Summarizes(p, s, peak) && Summarizes(q, t, peak')
    requires p.sampleSize == q.sampleSize
    ensures p == q
  {
    SameSize(s, t);
    TotalMapOfMultiset(s, t, Millis(), Same());
    RankOfRuns(s, t, 95, p.p95Millis, q.p95Millis);
    RankOfRuns(s, t, 99, p.p99Millis, q.p99Millis);
    PeakOfRuns(s, t, peak, peak');
  }

  /** The percentiles are ordered and lie among the samples. */
  lemma PercentilesOrdered(ms: seq<Measurement>, p: JobProfile, peak: nat)
    requires ms != [] && Summarizes(p, ms, peak)
    ensures p.p95Millis <= p.p99Millis
    ensures p.p95Millis in Durations(ms) && p.p99Millis in Durations(ms)
  {
    var n := |ms|;
    assert n * 95 <= n * 99;
    RankMonotone(Durations(ms), Rank(n, 95), p.p95Millis, Rank(n, 99), p.p99Millis);
  }

  /** Runs that took less than v, and runs that took at most v. */
  ghost function Faster(ms: seq<Measurement>, v: nat): set<int>
  {
    set i | 0 <= i < |ms| && ms[i].millis < v
  }

  ghost function NoSlower(ms: seq<Measurement>, v: nat): set<int>
  {
    set i | 0 <= i < |ms| && ms[i].millis <= v
  }

  ghost predicate FitMillis(ms: seq<Measurement>)
  {
    forall i :: 0 <= i < |ms| ==> ms[i].millis < TWO_64
  }

  lemma {:induction false} CountBelow(d: seq<nat>, v: nat)
    ensures |set i | 0 <= i < |d| && d[i] < v| == Total(d, Below(v))
  {
    if d != [] {
      var n := |d| - 1;
      var front := d[..n];
      CountBelow(front, v);
      TotalPush(d, n, Below(v));
      assert d[..n + 1] == d;
      var some := set i | 0 <= i < n && front[i] < v;
      assert (set i | 0 <= i < |d| && d[i] < v) == if d[n] < v then some + {n} else some;
    }
  }

  lemma {:induction false} CountAtMost(d: seq<nat>, v: nat)
    ensures |set i | 0 <= i < |d| && d[i] <= v| == Total(d, AtMost(v))
  {
    if d != [] {
      var n := |d| - 1;
      var front := d[..n];
      CountAtMost(front, v);
      TotalPush(d, n, AtMost(v));
      assert d[..n + 1] == d;
      var some := set i | 0 <= i < n && front[i] <= v;
      assert (set i | 0 <= i < |d| && d[i] <= v) == if d[n] <= v then some + {n} else some;
    }
  }

  lemma CountRuns(ms: seq<Measurement>, v: nat)
    requires FitMillis(ms)
    ensures |Faster(ms, v)| == Total(Durations(ms), Below(v))
    ensures |NoSlower(ms, v)| == Total(Durations(ms), AtMost(v))
  {
    var d := Durations(ms);
    assert forall i :: 0 <= i < |ms| ==> d[i] == ms[i].millis;
    assert Faster(ms, v) == set i | 0 <= i < |d| && d[i] < v;
    assert NoSlower(ms, v) == set i | 0 <= i < |d| && d[i] <= v;
    CountBelow(d, v);
    CountAtMost(d, v);
  }

  /** Counted on the runs: less than that percentage of them are faster, at least that percentage no slower. */
  lemma PercentileCounts(ms: seq<Measurement>, percent: nat, v: nat)
    requires ms != [] && FitMillis(ms) && 1 <= percent <= 100 && IsPercentile(Durations(ms), percent, v)
    ensures 100 * |Faster(ms, v)| < |ms| * percent <= 100 * |NoSlower(ms, v)|
  {
    CountRuns(ms, v);
    var k := Rank(|ms|, percent);
    assert |Durations(ms)| == |ms|;
    assert |Faster(ms, v)| < k <= |NoSlower(ms, v)|;
  }

  /** The reported peak is the memory of some run, and none took more. */
  lemma PeakOfBytes(ms: seq<Measurement>, peak: nat)
    requires ms != [] && IsPeak(Memories(ms), peak)
    ensures forall i :: 0 <= i < |ms| ==> ms[i].peakBytes <= peak
    ensures exists i :: 0 <= i < |ms| && ms[i].peakBytes == peak
  {
    var m := Memories(ms);
    forall i | 0 <= i < |ms| ensures ms[i].peakBytes <= peak {
      assert m[i] in m;
    }
    var i :| 0 <= i < |m| && m[i] == peak;
    assert ms[i].peakBytes == peak;
  }

  /** The average is the true one exactly when the sum of the durations fits 64 bits. */
  lemma AverageTrueIff(d: seq<nat>)
    requires 0 < |d| < TWO_64
    ensures Average(d) == Total(d, Same()) / |d| <==> Total(d, Same()) < TWO_64
  {
    WrapIff(Total(d, Same()), |d|);
  }

  lemma WrapIff(sum: nat, n: nat)
    requires 0 < n < TWO_64
    ensures sum % TWO_64 / n == sum / n <==> sum < TWO_64
  {
    if sum >= TWO_64 {
      WrapLoses(sum);
      DivStep(sum % TWO_64, sum, n);
    }
  }

  lemma WrapLoses(sum: nat)
    requires sum >= TWO_64
    ensures sum % TWO_64 + TWO_64 <= sum
  {}

  lemma DivStep(low: nat, high: nat, n: nat)
    requires n > 0 && low + n <= high
    ensures low / n < high / n
  {
    var q, q' := low / n, high / n;
    assert q * n <= low && high < (q' + 1) * n;
    if q' <= q { MulMonotone(q' + 1, q + 1, n); }
  }

  /** A true average lies between the shortest and the longest run. */
  lemma AverageBetween(d: seq<nat>, low: nat, high: nat)
    requires d != [] && Total(d, Same()) < TWO_64 && forall x :: x in d ==> low <= x <= high
    ensures low <= Average(d) <= high
  {
    TotalBounds(d, Same(), low, high);
    DivBetween(Total(d, Same()), |d|, low, high);
  }

  lemma DivBetween(sum: nat, n: nat, low: nat, high: nat)
    requires n > 0 && low * n <= sum <= high * n
    ensures low <= sum / n <= high
  {
    var q := sum / n;
    assert q * n <= sum < (q + 1) * n;
    if q < low { MulMonotone(q + 1, low, n); }
    if q > high { MulMonotone(high + 1, q, n); }
  }

  lemma MulMonotone(a: nat, b: nat, n: nat)
    requires a <= b
    ensures a * n <= b * n
  {
    assert b * n == a * n + (b - a) * n;
  }

  /** The peak in megabytes is cut to 32 bits exactly from 2^52 bytes on. */
  lemma PeakTrueIff(ms: seq<Measurement>, p: JobProfile, peak: nat)
    requires Summarizes(p, ms, peak)
    ensures p.peakMb == peak / 1_048_576 <==> peak < 0x10_0000_0000_0000
  {
    assert peak < 0x10_0000_0000_0000 <==> peak / MEGABYTE < TWO_32;
  }
}
