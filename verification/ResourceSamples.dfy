/** Downsampling of a server's resource history (database/resource_samples.go).

    Processor shares are reals: rounding of float64 is not modelled.  Byte counts are 64-bit
    words, and their running total wraps around as it does in Go. */
module ResourceSamples {
  import opened Wrappers

  const WORD: int := 0x1_0000_0000_0000_0000

  type Word = x: int | 0 <= x < 0x1_0000_0000_0000_0000

  /** What a uint64 variable holds when `total` is stored in it. */
  function Wrap(total: nat): Word {
    total % WORD
  }

  datatype Sample = Sample(
    id: int, serverId: int, timestamp: int, running: bool,
    cpu: Option<real>, cpuLimit: Option<real>,
    memory: Option<Word>, memoryPeak: Option<Word>, memoryHigh: Option<Word>, memoryLimit: Option<Word>)

  // ---------------------------------------------------------------- what a bucket stands for

  function CpuValues(samples: seq<Sample>): seq<real> {
    if samples == [] then []
    else
      var rest, last := CpuValues(samples[..|samples| - 1]), samples[|samples| - 1];
      if last.cpu.Some? then rest + [last.cpu.value] else rest
  }

  function MemoryValues(samples: seq<Sample>): seq<Word> {
    if samples == [] then []
    else
      var rest, last := MemoryValues(samples[..|samples| - 1]), samples[|samples| - 1];
      if last.memory.Some? then rest + [last.memory.value] else rest
  }

  function Total(values: seq<real>): real {
    if values == [] then 0.0 else Total(values[..|values| - 1]) + values[|values| - 1]
  }

  function Sum(values: seq<Word>): nat {
    if values == [] then 0 else Sum(values[..|values| - 1]) + values[|values| - 1]
  }

  /** The largest peak that was observed, if any was. */
  ghost predicate IsPeak(samples: seq<Sample>, peak: Option<Word>) {
    match peak
    case None => forall s :: s in samples ==> s.memoryPeak.None?
    case Some(p) =>
      && (forall s :: s in samples && s.memoryPeak.Some? ==> s.memoryPeak.value <= p)
      && exists s :: s in samples && s.memoryPeak == Some(p)
  }

  ghost predicate AnyRunning(samples: seq<Sample>) {
    exists s :: s in samples && s.running
  }

  /** The newest value reported at or after `from`, if any was. */
  ghost predicate IsLatest<T>(series: seq<Option<T>>, from: nat, value: Option<T>) {
    match value
    case None => forall i :: from <= i < |series| ==> series[i].None?
    case Some(_) =>
      exists i :: from <= i < |series| && series[i] == value && forall j :: i < j < |series| ==> series[j].None?
  }

  ghost function CpuLimits(samples: seq<Sample>): seq<Option<real>> {
    seq(|samples|, i requires 0 <= i < |samples| => samples[i].cpuLimit)
  }

  ghost function MemoryHighs(samples: seq<Sample>): seq<Option<Word>> {
    seq(|samples|, i requires 0 <= i < |samples| => samples[i].memoryHigh)
  }

  ghost function MemoryLimits(samples: seq<Sample>): seq<Option<Word>> {
    seq(|samples|, i requires 0 <= i < |samples| => samples[i].memoryLimit)
  }

  ghost predicate Summarizes(samples: seq<Sample>, r: Sample)
    requires samples != []
  {
    var last, cpu, memory := samples[|samples| - 1], CpuValues(samples), MemoryValues(samples);
    && r.id == 0 && r.serverId == last.serverId && r.timestamp == last.timestamp
    && (r.running <==> AnyRunning(samples))
    && r.cpu == (if cpu == [] then None else Some(Total(cpu) / |cpu| as real))
    && r.memory == (if memory == [] then None else Some(Wrap(Sum(memory)) / |memory|))
    && IsPeak(samples, r.memoryPeak)
    && IsLatest(CpuLimits(samples), 0, r.cpuLimit)
    && IsLatest(MemoryHighs(samples), 0, r.memoryHigh)
    && IsLatest(MemoryLimits(samples), 0, r.memoryLimit)
  }

  lemma WrapStep(total: nat, x: Word)
    ensures Wrap(Wrap(total) + x) == Wrap(total + x)
  {}

  lemma CpuStep(samples: seq<Sample>, sample: Sample)
    ensures var before, after := CpuValues(samples), CpuValues(samples + [sample]);
            after == before + (if sample.cpu.Some? then [sample.cpu.value] else [])
            && Total(after) == Total(before) + if sample.cpu.Some? then sample.cpu.value else 0.0
  {
    assert (samples + [sample])[..|samples|] == samples;
    if sample.cpu.Some? {
      assert (CpuValues(samples) + [sample.cpu.value])[..|CpuValues(samples)|] == CpuValues(samples);
    }
  }

  lemma MemoryStep(samples: seq<Sample>, sample: Sample)
    ensures var before, after := MemoryValues(samples), MemoryValues(samples + [sample]);
            after == before + (if sample.memory.Some? then [sample.memory.value] else [])
            && Wrap(Sum(after)) == if sample.memory.Some? then Wrap(Wrap(Sum(before)) + sample.memory.value) else Wrap(Sum(before))
  {
    assert (samples + [sample])[..|samples|] == samples;
    if sample.memory.Some? {
      WrapStep(Sum(MemoryValues(samples)), sample.memory.value);
      assert (MemoryValues(samples) + [sample.memory.value])[..|MemoryValues(samples)|] == MemoryValues(samples);
    }
  }

  function LargerPeak(peak: Option<Word>, sample: Sample): Option<Word> {
    if sample.memoryPeak.Some? && (peak.None? || sample.memoryPeak.value > peak.value)
    then sample.memoryPeak else peak
  }

  lemma PeakStep(samples: seq<Sample>, sample: Sample, peak: Option<Word>)
    requires IsPeak(samples, peak)
    ensures IsPeak(samples + [sample], LargerPeak(peak, sample))
  {
    assert forall s :: s in samples + [sample] <==> s in samples || s == sample;
  }

  lemma RunningStep(samples: seq<Sample>, sample: Sample)
    ensures AnyRunning(samples + [sample]) <==> AnyRunning(samples) || sample.running
  {
    assert forall s :: s in samples + [sample] <==> s in samples || s == sample;
  }

  /** The newest limits: `for index := len(samples) - 1; index >= 0; index--`. */
  method LatestLimits(samples: seq<Sample>)
    returns (cpuLimit: Option<real>, memoryHigh: Option<Word>, memoryLimit: Option<Word>)
    ensures IsLatest(CpuLimits(samples), 0, cpuLimit)
    ensures IsLatest(MemoryHighs(samples), 0, memoryHigh)
    ensures IsLatest(MemoryLimits(samples), 0, memoryLimit)
  {
    cpuLimit, memoryHigh, memoryLimit := None, None, None;
    var index := |samples|;
    while index > 0
      invariant 0 <= index <= |samples|
      invariant IsLatest(CpuLimits(samples), index, cpuLimit)
      invariant IsLatest(MemoryHighs(samples), index, memoryHigh)
      invariant IsLatest(MemoryLimits(samples), index, memoryLimit)
    {
      index := index - 1;
      var sample := samples[index];
      if cpuLimit.None? && sample.cpuLimit.Some? {
        assert CpuLimits(samples)[index] == sample.cpuLimit;
        cpuLimit := sample.cpuLimit;
      }
      if memoryHigh.None? && sample.memoryHigh.Some? {
        assert MemoryHighs(samples)[index] == sample.memoryHigh;
        memoryHigh := sample.memoryHigh;
      }
      if memoryLimit.None? && sample.memoryLimit.Some? {
        assert MemoryLimits(samples)[index] == sample.memoryLimit;
        memoryLimit := sample.memoryLimit;
      }
    }
  }

  /** The variables of the accumulating loop. */
  datatype Totals = Totals(running: bool, cpu: real, cpuCount: nat, memory: Word, memoryCount: nat, peak: Option<Word>)

  ghost predicate TotalsOf(samples: seq<Sample>, t: Totals) {
    && (t.running <==> AnyRunning(samples))
    && t.cpu == Total(CpuValues(samples)) && t.cpuCount == |CpuValues(samples)|
    && t.memory == Wrap(Sum(MemoryValues(samples))) && t.memoryCount == |MemoryValues(samples)|
    && IsPeak(samples, t.peak)
  }

  /** The body of the accumulating loop. */
  function AddSample(t: Totals, sample: Sample): Totals {
    Totals(t.running || sample.running,
           if sample.cpu.Some? then t.cpu + sample.cpu.value else t.cpu,
           if sample.cpu.Some? then t.cpuCount + 1 else t.cpuCount,
           if sample.memory.Some? then Wrap(t.memory + sample.memory.value) else t.memory,
           if sample.memory.Some? then t.memoryCount + 1 else t.memoryCount,
           LargerPeak(t.peak, sample))
  }

  lemma TotalsStep(samples: seq<Sample>, sample: Sample, t: Totals)
    requires TotalsOf(samples, t)
    ensures TotalsOf(samples + [sample], AddSample(t, sample))
  {
    hide CpuValues, MemoryValues, Total, Sum, IsPeak, AnyRunning, Wrap;
    RunningStep(samples, sample);
    CpuStep(samples, sample);
    MemoryStep(samples, sample);
    PeakStep(samples, sample, t.peak);
  }

  method Accumulate(samples: seq<Sample>) returns (t: Totals)
    ensures TotalsOf(samples, t)
  {
    t := Totals(false, 0.0, 0, 0, 0, None);
    assert samples[..0] == [] && TotalsOf([], t);
    hide TotalsOf, AddSample;
    for i := 0 to |samples|
      invariant TotalsOf(samples[..i], t)
    {
      TotalsStep(samples[..i], samples[i], t);
      assert samples[..i + 1] == samples[..i] + [samples[i]];
      t := AddSample(t, samples[i]);
    }
    assert samples[..|samples|] == samples;
  }

  lemma QuotientInWord(total: nat, n: nat)
    requires n > 0
    ensures 0 <= Wrap(total) / n < WORD
  {
    var x := Wrap(total);
    assert x == (x / n) * n + x % n;
    assert (x / n) * n == x / n + (x / n) * (n - 1);
  }

  /** What one bucket is shown as. */
  method Aggregate(samples: seq<Sample>) returns (result: Sample)
    requires samples != []
    ensures Summarizes(samples, result)
  {
    hide CpuValues, MemoryValues, Total, Sum, IsPeak, AnyRunning, IsLatest;
    var t := Accumulate(samples);
    var cpuLimit, memoryHigh, memoryLimit := LatestLimits(samples);
    var cpu, memory := None, None;
    if t.cpuCount > 0 {
      cpu := Some(t.cpu / t.cpuCount as real);
    }
    if t.memoryCount > 0 {
      QuotientInWord(Sum(MemoryValues(samples)), t.memoryCount);
      memory := Some(t.memory / t.memoryCount);
    }
    var last := samples[|samples| - 1];
    result := Sample(0, last.serverId, last.timestamp, t.running,
                     cpu, cpuLimit, memory, t.peak, memoryHigh, memoryLimit);
  }

  // ---------------------------------------------------------------- the averages

  lemma {:induction false} TotalBounds(values: seq<real>, lo: real, hi: real)
    requires forall v :: v in values ==> lo <= v <= hi
    ensures lo * |values| as real <= Total(values) <= hi * |values| as real
  {
    if values != [] {
      var rest := values[..|values| - 1];
      assert forall v :: v in rest ==> v in values;
      assert values[|values| - 1] in values;
      TotalBounds(rest, lo, hi);
      assert |values| as real == |rest| as real + 1.0;
      assert lo * (|rest| as real + 1.0) == lo * |rest| as real + lo;
      assert hi * (|rest| as real + 1.0) == hi * |rest| as real + hi;
    }
  }

  /** A bucket's processor share lies between the least and the greatest one observed. */
  lemma CpuMeanBetween(values: seq<real>, lo: real, hi: real)
    requires values != [] && forall v :: v in values ==> lo <= v <= hi
    ensures lo <= Total(values) / |values| as real <= hi
  {
    TotalBounds(values, lo, hi);
    DivideBetween(lo, Total(values), hi, |values| as real);
  }

  lemma DivideBetween(lo: real, total: real, hi: real, n: real)
    requires n > 0.0 && lo * n <= total <= hi * n
    ensures lo <= total / n <= hi
  {
    var mean := total / n;
    assert mean * n == total;
    assert lo - mean > 0.0 ==> (lo - mean) * n > 0.0;
    assert mean - hi > 0.0 ==> (mean - hi) * n > 0.0;
  }

  lemma {:induction false} SumBounds(values: seq<Word>, lo: nat, hi: nat)
    requires forall v :: v in values ==> lo <= v <= hi
    ensures lo * |values| <= Sum(values) <= hi * |values|
  {
    if values != [] {
      var rest := values[..|values| - 1];
      assert forall v :: v in rest ==> v in values;
      assert values[|values| - 1] in values;
      SumBounds(rest, lo, hi);
      assert lo * (|rest| + 1) == lo * |rest| + lo && hi * (|rest| + 1) == hi * |rest| + hi;
    }
  }

  /** The stored memory figure is the mean, rounded down, exactly when the 64-bit total did not
      wrap around; it then lies between the least and the greatest value observed. */
  lemma MemoryMeanExact(values: seq<Word>, lo: nat, hi: nat)
    requires 0 < |values| < WORD && forall v :: v in values ==> lo <= v <= hi
    ensures Wrap(Sum(values)) / |values| == Sum(values) / |values| <==> Sum(values) < WORD
    ensures Sum(values) < WORD ==> lo <= Wrap(Sum(values)) / |values| <= hi
  {
    var n, total := |values|, Sum(values);
    SumBounds(values, lo, hi);
    assert lo * n / n == lo && hi * n / n == hi by { QuotientOf(lo, n); QuotientOf(hi, n); }
    QuotientMonotone(lo * n, total, n);
    QuotientMonotone(total, hi * n, n);
    if total >= WORD {
      assert Wrap(total) + n <= total;
      QuotientMonotone(Wrap(total) + n, total, n);
      assert (Wrap(total) + n) / n == Wrap(total) / n + 1 by { QuotientShift(Wrap(total), n); }
    }
  }

  lemma SmallMultiple(d: int, n: nat)
    requires n > 0 && -(n as int) < d * n < n
    ensures d == 0
  {
    assert d >= 1 ==> d * n >= n;
    assert d <= -1 ==> d * n <= -(n as int);
  }

  lemma QuotientUnique(x: nat, n: nat, q: nat, r: nat)
    requires n > 0 && x == q * n + r && r < n
    ensures x / n == q
  {
    var d := x / n - q;
    assert x == (x / n) * n + x % n;
    assert d * n == (x / n) * n - q * n;
    SmallMultiple(d, n);
  }

  lemma QuotientOf(x: nat, n: nat)
    requires n > 0
    ensures x * n / n == x
  {
    QuotientUnique(x * n, n, x, 0);
  }

  lemma QuotientShift(x: nat, n: nat)
    requires n > 0
    ensures (x + n) / n == x / n + 1
  {
    assert x + n == (x / n + 1) * n + x % n;
    QuotientUnique(x + n, n, x / n + 1, x % n);
  }

  lemma QuotientMonotone(x: nat, y: nat, n: nat)
    requires n > 0 && x <= y
    ensures x / n <= y / n
  {
    var d := x / n - y / n;
    assert x == (x / n) * n + x % n && y == (y / n) * n + y % n;
    assert d * n == (x / n) * n - (y / n) * n < n;
    assert d >= 1 ==> d * n >= n;
  }

  /** Three huge readings make the total wrap, and the mean fall below all of them. */
  lemma WrappedMeanIsLow(x: Word)
    requires x == 0x7FFF_FFFF_FFFF_FFFF
    ensures Sum([x, x, x]) >= WORD && Wrap(Sum([x, x, x])) / 3 < x
  {
    assert [x, x, x][..2] == [x, x] && [x, x][..1] == [x] && [x][..0] == [];
    assert Sum([x]) == x && Sum([x, x]) == 2 * x && Sum([x, x, x]) == 3 * x;
  }

  lemma {:induction false} ValuesAreReadings(samples: seq<Sample>)
    ensures forall v :: v in CpuValues(samples) ==> exists s :: s in samples && s.cpu == Some(v)
    ensures forall v :: v in MemoryValues(samples) ==> exists s :: s in samples && s.memory == Some(v)
  {
    if samples != [] {
      var rest, last := samples[..|samples| - 1], samples[|samples| - 1];
      ValuesAreReadings(rest);
      assert forall s :: s in rest || s == last ==> s in samples;
    }
  }

  /** What a bucket shows for the processor lies within the readings of the bucket; what it shows
      for memory does too unless the total wrapped around. */
  lemma AveragesWithinReadings(samples: seq<Sample>, r: Sample, low: real, high: real, least: nat, most: nat)
    requires 0 < |samples| < WORD && Summarizes(samples, r)
    requires forall s :: s in samples && s.cpu.Some? ==> low <= s.cpu.value <= high
    requires forall s :: s in samples && s.memory.Some? ==> least <= s.memory.value <= most
    ensures r.cpu.Some? ==> low <= r.cpu.value <= high
    ensures r.memory.Some? && Sum(MemoryValues(samples)) < WORD ==> least <= r.memory.value <= most
  {
    ValuesAreReadings(samples);
    MemoryValuesShort(samples);
    hide CpuValues, MemoryValues, Total, Sum, IsPeak, AnyRunning, IsLatest, Wrap;
    if r.cpu.Some? { CpuMeanBetween(CpuValues(samples), low, high); }
    if r.memory.Some? { MemoryMeanExact(MemoryValues(samples), least, most); }
  }

  lemma {:induction false} MemoryValuesShort(samples: seq<Sample>)
    ensures |MemoryValues(samples)| <= |samples|
  {
    if samples != [] { MemoryValuesShort(samples[..|samples| - 1]); }
  }

  // ---------------------------------------------------------------- the buckets

  /** Where bucket i begins when n samples are cut into m. */
  function Cut(n: nat, m: nat, i: nat): nat
    requires m > 0
  {
    n * i / m
  }

  /** The m cuts partition the samples in order into buckets that differ by at most one. */
  lemma CutStep(n: nat, m: nat, i: nat)
    requires 0 < m
    ensures Cut(n, m, 0) == 0 && Cut(n, m, m) == n
    ensures n / m <= Cut(n, m, i + 1) - Cut(n, m, i) <= n / m + 1
  {
    QuotientUnique(n * 0, m, 0, 0);
    QuotientOf(n, m);
    assert n * (i + 1) == n * i + n;
    QuotientStep(n * i, n, m);
  }

  lemma QuotientStep(a: nat, n: nat, m: nat)
    requires 0 < m
    ensures n / m <= (a + n) / m - a / m <= n / m + 1
  {
    assert a == a / m * m + a % m && n == n / m * m + n % m;
    SumQuotient(a / m, a % m, n / m, n % m, m);
  }

  lemma SumQuotient(q: nat, r: nat, w: nat, v: nat, m: nat)
    requires r < m && v < m
    ensures q + w <= (q * m + r + (w * m + v)) / m <= q + w + 1
  {
    var x := q * m + r + (w * m + v);
    assert (q + w) * m == q * m + w * m && (q + w + 1) * m == (q + w) * m + m;
    if r + v < m {
      QuotientUnique(x, m, q + w, r + v);
    } else {
      QuotientUnique(x, m, q + w + 1, r + v - m);
    }
  }

  lemma {:induction false} CutMonotone(n: nat, m: nat, i: nat, j: nat)
    requires 0 < m && i <= j
    ensures Cut(n, m, i) <= Cut(n, m, j)
    decreases j - i
  {
    if i < j {
      CutStep(n, m, i);
      assert n / m >= 0;
      CutMonotone(n, m, i + 1, j);
    }
  }

  ghost predicate Buckets(samples: seq<Sample>, m: nat, result: seq<Sample>, count: nat)
    requires 0 < m < |samples|
  {
    && |result| == count <= m
    && forall i :: 0 <= i < count ==> BucketOK(samples, m, result[i], i)
  }

  ghost predicate BucketOK(samples: seq<Sample>, m: nat, r: Sample, i: nat)
    requires 0 < m < |samples|
  {
    var n := |samples|;
    && Cut(n, m, i) < Cut(n, m, i + 1) <= n
    && Summarizes(samples[Cut(n, m, i)..Cut(n, m, i + 1)], r)
  }

  /** Fewer samples than points are returned as they are; otherwise the result has exactly
      maxPoints entries, one per bucket, and neither bound on `end` ever bites. */
  method Downsample(samples: seq<Sample>, maxPoints: int) returns (result: seq<Sample>)
    ensures maxPoints <= 0 || |samples| <= maxPoints ==> result == samples
    ensures 0 < maxPoints < |samples| ==> Buckets(samples, maxPoints, result, maxPoints)
  {
    if maxPoints <= 0 || |samples| <= maxPoints {
      return samples;
    }
    hide Summarizes;
    ghost var n, m: nat := |samples|, maxPoints;
    QuotientMonotone(m, n, m);
    CutStep(n, m, 0);
    result := [];
    var start := 0;
    while start < |samples|
      invariant Buckets(samples, m, result, |result|)
      invariant start == Cut(n, m, |result|) <= n
      decreases n - start
    {
      CutStep(n, m, |result|);
      assert |result| < m;
      CutMonotone(n, m, |result| + 1, m);
      var end := (|samples| * (|result| + 1)) / maxPoints;
      if end <= start {
        assert false;
        end := start + 1;
      }
      if end > |samples| {
        assert false;
        end := |samples|;
      }
      var r := Aggregate(samples[start..end]);
      result, start := result + [r], end;
    }
    if |result| < m {
      CutMonotone(n, m, |result| + 1, m);
      CutStep(n, m, |result|);
    }
  }

  // ---------------------------------------------------------------- what survives overall

  lemma {:induction false} BucketOf(n: nat, m: nat, k: nat, upTo: nat) returns (i: nat)
    requires 0 < m && k < Cut(n, m, upTo) && upTo <= m
    ensures i < upTo && Cut(n, m, i) <= k < Cut(n, m, i + 1)
  {
    CutStep(n, m, 0);
    if Cut(n, m, upTo - 1) <= k {
      i := upTo - 1;
    } else {
      i := BucketOf(n, m, k, upTo - 1);
    }
  }

  lemma InBucket(samples: seq<Sample>, m: nat, result: seq<Sample>, k: nat) returns (i: nat)
    requires 0 < m < |samples| && Buckets(samples, m, result, m) && k < |samples|
    ensures i < m && BucketOK(samples, m, result[i], i)
    ensures samples[k] in samples[Cut(|samples|, m, i)..Cut(|samples|, m, i + 1)]
  {
    hide Summarizes, Cut;
    CutStep(|samples|, m, 0);
    i := BucketOf(|samples|, m, k, m);
    assert BucketOK(samples, m, result[i], i);
    assert samples[Cut(|samples|, m, i)..Cut(|samples|, m, i + 1)][k - Cut(|samples|, m, i)] == samples[k];
  }

  /** The highest peak and whether the server ever ran are the same before and after. */
  lemma PeakAndRunningSurvive(samples: seq<Sample>, m: nat, result: seq<Sample>, peak: Option<Word>)
    requires 0 < m < |samples| && Buckets(samples, m, result, m)
    ensures IsPeak(result, peak) ==> IsPeak(samples, peak)
    ensures AnyRunning(result) <==> AnyRunning(samples)
  {
    hide CpuValues, MemoryValues, Total, Sum, IsLatest, Cut;
    forall s | s in samples
      ensures exists r :: r in result && (s.running ==> r.running)
                && (s.memoryPeak.Some? ==> r.memoryPeak.Some? && s.memoryPeak.value <= r.memoryPeak.value)
    {
      var k :| 0 <= k < |samples| && samples[k] == s;
      var i := InBucket(samples, m, result, k);
      assert result[i] in result;
    }
    forall r | r in result
      ensures r.running ==> AnyRunning(samples)
      ensures r.memoryPeak.Some? ==> exists s :: s in samples && s.memoryPeak == r.memoryPeak
    {
      var i :| 0 <= i < |result| && result[i] == r;
      assert BucketOK(samples, m, r, i);
      var bucket := samples[Cut(|samples|, m, i)..Cut(|samples|, m, i + 1)];
      assert forall s :: s in bucket ==> s in samples;
    }
  }
}
