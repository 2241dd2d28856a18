/** The feedback objects: running statistics over all samples, and the ring of recent samples. */
module Measurement {
  import opened Statistics
  import opened Comparison

  const DEFAULT_MIN_TRIALS: nat := 2
  const TWO_TO_64: nat := 0x1_0000_0000_0000_0000
  const TWO_TO_63: nat := 0x8000_0000_0000_0000

  /** uint64_t addition with the overflow check of TotalExecutionTime::endMeasurement. */
  function SaturatingAdd(deployed: nat, elapsed: nat): nat {
    var wrapped := (deployed + elapsed) % TWO_TO_64;
    if wrapped < deployed then TWO_TO_64 - 1 else wrapped
  }

  /** uint64_t addition without a check, as in RecentFeedbackBuffer::endMeasurement. */
  function WrappingAdd(deployed: nat, elapsed: nat): nat {
    (deployed + elapsed) % TWO_TO_64
  }

  function Saturated(n: nat): nat {
    if n < TWO_TO_64 then n else TWO_TO_64 - 1
  }

  /** Adding sample by sample with the check gives the saturated sum. */
  lemma SaturatingAddIsExact(total: nat, elapsed: nat)
    requires 0 < elapsed < TWO_TO_63
    ensures SaturatingAdd(Saturated(total), elapsed) == Saturated(total + elapsed)
    ensures total + elapsed < 0x1_0000_0000_0000_0000 ==> Saturated(total + elapsed) == total + elapsed
    ensures total + elapsed >= 0x1_0000_0000_0000_0000 ==> Saturated(total + elapsed) == 0xFFFF_FFFF_FFFF_FFFF
  {
  }

  predicate AllPositive(xs: seq<int>) {
    forall i :: 0 <= i < |xs| ==> 0 < xs[i] < TWO_TO_63
  }

  /** The unbiased sample variance, zero for fewer than two samples. */
  function Variance(xs: seq<int>): real {
    if |xs| < 2 then 0.0 else SqDev(xs, Mean(xs)) / (|xs| - 1) as real
  }

  /** It is the squared deviations from the mean over one less than the number of samples. */
  lemma VarianceIsUnbiased(xs: seq<int>)
    ensures |xs| < 2 ==> Variance(xs) == 0.0
    ensures |xs| >= 2 ==> Variance(xs) * (|xs| as real - 1.0) == SqDev(xs, Mean(xs))
  {
    hide SqDev, Mean;
    if |xs| >= 2 {
      var d, n := SqDev(xs, Mean(xs)), |xs| as real - 1.0;
      assert Variance(xs) == d / n;
      hide Variance;
      QuotientTimes(Variance(xs), d, n);
    }
  }

  lemma QuotientTimes(v: real, d: real, n: real)
    requires n > 0.0 && v == d / n
    ensures v * n == d
  {
  }

  /** What a sample reports once it is non-empty is fit for comparison. */
  lemma ReportIsMeasured(xs: seq<int>)
    requires xs != [] && AllPositive(xs)
    ensures Mean(xs) > 0.0 && Variance(xs) >= 0.0
    ensures Measured(Snapshot(Mean(xs), Variance(xs), |xs|))
  {
    SumPositive(xs);
    SqDevNonNegative(xs, Mean(xs));
  }

  /** 100 * stdErr / mean <= bound, by the square of the standard error. */
  predicate ErrorWithin(errSq: real, mean: real, bound: real) {
    bound >= 0.0 && 10_000.0 * errSq <= Square(bound * mean)
  }

  /** With the standard error at hand it is the program's comparison in percent, for any bound. */
  lemma ErrorWithinByRoot(errSq: real, root: real, mean: real, bound: real)
    requires root >= 0.0 && root * root == errSq && mean > 0.0
    ensures ErrorWithin(errSq, mean, bound) <==> (root / mean) * 100.0 <= bound
  {
    if bound >= 0.0 {
      PercentWithoutRoot(errSq, root, mean, bound);
    } else {
      assert root / mean >= 0.0;
    }
  }

  /** The square of the standard error that TotalExecutionTime keeps: the corrected deviation
      sqrt(sumSqDiff / (n - 1.5)) over sqrt(n). */
  function CorrectedErrSq(sumSqDiff: real, n: nat): real
    requires n > 2
  {
    sumSqDiff / (n as real - 1.5) / n as real
  }

  predicate StdErrWithin(sumSqDiff: real, n: nat, mean: real, bound: real)
    requires n > 2
  {
    ErrorWithin(CorrectedErrSq(sumSqDiff, n), mean, bound)
  }

  /** From the two roots that the program takes: of the corrected variance and of the sample size. */
  lemma StdErrByRoots(sumSqDiff: real, n: nat, mean: real, bound: real, stdDev: real, rootN: real)
    requires n > 2 && mean > 0.0
    requires stdDev >= 0.0 && stdDev * stdDev == sumSqDiff / (n as real - 1.5)
    requires rootN > 0.0 && rootN * rootN == n as real
    ensures StdErrWithin(sumSqDiff, n, mean, bound) <==> (stdDev / rootN / mean) * 100.0 <= bound
  {
    var stdErr := stdDev / rootN;
    SquareOfQuotient(stdDev, rootN);
    ErrorWithinByRoot(CorrectedErrSq(sumSqDiff, n), stdErr, mean, bound);
  }

  lemma SquareOfQuotient(a: real, b: real)
    requires a >= 0.0 && b > 0.0
    ensures a / b >= 0.0 && (a / b) * (a / b) == a * a / (b * b)
  {
    var q := a / b;
    assert q * b == a;
    assert (q * q) * (b * b) == (q * b) * (q * b) == a * a;
    SquareLt(0.0, b);
    var qq, aa, bb := q * q, a * a, b * b;
    assert qq * bb == aa;
    Quotient(qq, aa, bb);
  }

  lemma Quotient(x: real, y: real, c: real)
    requires c > 0.0 && x * c == y
    ensures x == y / c
  {
  }

  /** What `goodQuality` promises about a history: enough samples with a small enough error, or any sample
      at all when the bound is negative. */
  predicate GoodTotal(xs: seq<int>, errBound: real) {
    || (|xs| > DEFAULT_MIN_TRIALS && StdErrWithin(SqDev(xs, Mean(xs)), |xs|, Mean(xs), errBound))
    || (|xs| >= 1 && errBound < 0.0)
  }

  /** It is the program's test, from its two square roots: with more than two samples the percentage within the
      bound, or with any sample a negative bound. */
  lemma GoodTotalByRoots(xs: seq<int>, errBound: real, mean: real, stdDev: real, rootN: real)
    requires |xs| > 2 ==> mean == Mean(xs) && mean > 0.0
    requires |xs| > 2 ==> stdDev >= 0.0 && stdDev * stdDev == SqDev(xs, Mean(xs)) / (|xs| as real - 1.5)
    requires |xs| > 2 ==> rootN > 0.0 && rootN * rootN == |xs| as real
    ensures |xs| > 2 ==> rootN > 0.0 && mean > 0.0
    ensures GoodTotal(xs, errBound)
      <==> (|xs| > 2 && (stdDev / rootN / mean) * 100.0 <= errBound) || (|xs| >= 1 && errBound < 0.0)
  {
    if |xs| > 2 {
      hide Mean, SqDev, Sum;
      StdErrByRoots(SqDev(xs, mean), |xs|, mean, errBound, stdDev, rootN);
    }
  }

  /** The formulas of endMeasurement turn the batch statistics of `xs` into those of `xs + [x]`. */
  lemma OnlineFormulas(xs: seq<int>, x: int, n: real, avg: real, newAvg: real)
    requires xs != [] && n == (|xs| + 1) as real && avg == Mean(xs)
    requires newAvg == (x as real + (n - 1.0) * avg) / n
    ensures newAvg == Mean(xs + [x])
    ensures SqDev(xs + [x], newAvg) == SqDev(xs, avg) + (x as real - avg) * (x as real - newAvg)
    ensures Variance(xs + [x]) == SqDev(xs + [x], newAvg) / (n - 1.0)
  {
    hide Mean, SqDev, Sum, Square;
    assert n - 1.0 == |xs| as real;
    MeanSnoc(xs, x);
    WelfordStep(xs, x);
  }

  class TotalExecutionTime {
    const errBound: real
    var average: real
    var sampleVariance: real
    var sumSqDiff: real
    var dataPoints: nat
    var deployedTime: nat

    var caGoodQuality: bool
    var caMean: real
    var caVariance: real
    var caSampleSize: nat

    ghost var samples: seq<int>
    ghost var sinceReset: seq<int>

    /** The running statistics are the batch statistics of everything measured so far, and the deployed
        time is the saturated sum since the last reset. */
    ghost predicate Valid()
      reads this
    {
      && dataPoints == |samples|
      && AllPositive(samples) && AllPositive(sinceReset)
      && Sum(sinceReset) >= 0
      && deployedTime == Saturated(Sum(sinceReset))
      && sampleVariance == Variance(samples)
      && (if samples == [] then average == 0.0 && sumSqDiff == 0.0
          else average == Mean(samples) && sumSqDiff == SqDev(samples, Mean(samples)))
    }

    constructor (errPctBound: real)
      ensures Valid() && errBound == errPctBound && samples == [] && sinceReset == []
    {
      errBound := errPctBound;
      average, sampleVariance, sumSqDiff, dataPoints, deployedTime := 0.0, 0.0, 0.0, 0, 0;
      caGoodQuality, caMean, caVariance, caSampleSize := false, 0.0, 0.0, 0;
      samples, sinceReset := [], [];
    }

    method EndMeasurement(elapsedTime: int)
      requires Valid() && 0 < elapsedTime < TWO_TO_63
      modifies this`average, this`sampleVariance, this`sumSqDiff, this`dataPoints, this`deployedTime, this`samples, this`sinceReset
      ensures Valid()
      ensures samples == old(samples) + [elapsedTime] && sinceReset == old(sinceReset) + [elapsedTime]
    {
      CountDeployed(elapsedTime);
      hide Mean, SqDev, Sum, Square;
      dataPoints := dataPoints + 1;
      if dataPoints == 1 {
        average := elapsedTime as real;
        samples := samples + [elapsedTime];
        FirstSample(elapsedTime);
        return;
      }
      FoldSample(elapsedTime);
    }

    /** The deployment counter, with its overflow check. */
    method CountDeployed(elapsedTime: int)
      requires Sum(sinceReset) >= 0 && deployedTime == Saturated(Sum(sinceReset)) && 0 < elapsedTime < TWO_TO_63
      modifies this`deployedTime, this`sinceReset
      ensures sinceReset == old(sinceReset) + [elapsedTime]
      ensures Sum(sinceReset) >= 0 && deployedTime == Saturated(Sum(sinceReset))
    {
      SaturatingAddIsExact(Sum(sinceReset), elapsedTime);
      SumSnoc(sinceReset, elapsedTime);
      var newDeployedTime := (deployedTime + elapsedTime) % TWO_TO_64;
      if newDeployedTime < deployedTime {
        newDeployedTime := TWO_TO_64 - 1;
      }
      deployedTime := newDeployedTime;
      sinceReset := sinceReset + [elapsedTime];
    }

    /** The online formulas, from the second sample on. */
    method FoldSample(elapsedTime: int)
      requires samples != [] && dataPoints == |samples| + 1
      requires average == Mean(samples) && sumSqDiff == SqDev(samples, Mean(samples))
      modifies this`average, this`sampleVariance, this`sumSqDiff, this`samples
      ensures samples == old(samples) + [elapsedTime]
      ensures average == Mean(samples) && sumSqDiff == SqDev(samples, Mean(samples)) && sampleVariance == Variance(samples)
    {
      hide *;
      var n := dataPoints as real;
      var newAvg := (elapsedTime as real + (n - 1.0) * average) / n;
      OnlineFormulas(samples, elapsedTime, n, average, newAvg);
      sumSqDiff := sumSqDiff + (elapsedTime as real - average) * (elapsedTime as real - newAvg);
      sampleVariance := sumSqDiff / (n - 1.0);
      average := newAvg;
      samples := samples + [elapsedTime];
    }

    method ResetDeployedTime()
      requires Valid()
      modifies this`deployedTime, this`sinceReset
      ensures Valid() && deployedTime == 0 && sinceReset == []
    {
      deployedTime := 0;
      sinceReset := [];
    }

    /** updateStats: refresh the answers that the const queries give. */
    method UpdateStats()
      requires Valid()
      modifies this`caGoodQuality, this`caMean, this`caVariance, this`caSampleSize
      ensures Valid()
      ensures caGoodQuality <==> GoodTotal(samples, errBound)
      ensures caSampleSize == |samples| && caVariance == Variance(samples)
      ensures samples != [] ==> caMean == Mean(samples)
      ensures samples != [] ==> Measured(Snapshot(caMean, caVariance, caSampleSize))
    {
      caGoodQuality := (dataPoints > DEFAULT_MIN_TRIALS && StdErrWithin(sumSqDiff, dataPoints, average, errBound))
                       || (dataPoints >= 1 && errBound < 0.0);
      caMean, caVariance, caSampleSize := average, sampleVariance, dataPoints;
      if samples != [] {
        ReportIsMeasured(samples);
      }
    }
  }

  lemma FirstSample(x: int)
    ensures [] + [x] == [x] && Mean([x]) == x as real && SqDev([x], Mean([x])) == 0.0 && Variance([x]) == 0.0
  {
    assert [x][..0] == [];
    assert Sum([x]) == x;
    assert Mean([x]) == x as real;
  }

  // ----- recent samples

  datatype Sample = Sample(start: int, end: int) {
    function Elapsed(): int { end - start }
  }

  function Durations(xs: seq<Sample>): seq<int> {
    seq(|xs|, i requires 0 <= i < |xs| => xs[i].Elapsed())
  }

  /** The last `size` samples, or all of them if there are fewer. */
  function Window(xs: seq<Sample>, size: nat): seq<Sample> {
    if |xs| <= size then xs else xs[|xs| - size..]
  }

  /** The window ends where the history ends, and is as long as it can be. */
  lemma WindowIsLast(xs: seq<Sample>, size: nat, k: nat)
    ensures |Window(xs, size)| == if |xs| < size then |xs| else size
    ensures k < |Window(xs, size)| ==> Window(xs, size)[|Window(xs, size)| - 1 - k] == xs[|xs| - 1 - k]
  {
  }

  /** The ring holds the window of `history`, in order from the oldest, when writing next at `cur`. */
  predicate RingHolds(slots: seq<Sample>, cur: nat, history: seq<Sample>) {
    && cur < |slots|
    && (if |history| < |slots| then cur == |history| && slots[..cur] == history
        else slots[cur..] + slots[..cur] == Window(history, |slots|))
  }

  function NextSlot(cur: nat, size: nat): nat
    requires cur < size
  {
    (cur + 1) % size
  }

  lemma NextIs(cur: nat, size: nat)
    requires cur < size
    ensures NextSlot(cur, size) == if cur + 1 == size then 0 else cur + 1
  {
  }

  /** One write: the oldest sample makes room for the newest. */
  lemma RingWrite(slots: seq<Sample>, cur: nat, history: seq<Sample>, s: Sample)
    requires RingHolds(slots, cur, history)
    ensures RingHolds(slots[cur := s], NextSlot(cur, |slots|), history + [s])
  {
    NextIs(cur, |slots|);
    hide NextSlot;
    if |history| < |slots| {
      RingFills(slots, cur, history, s);
    } else {
      RingTurns(slots, cur, history, s);
    }
  }

  lemma RingFills(slots: seq<Sample>, cur: nat, history: seq<Sample>, s: Sample)
    requires cur == |history| < |slots| && slots[..cur] == history
    ensures slots[cur := s][..cur + 1] == history + [s]
    ensures cur + 1 == |slots| ==> slots[cur := s][0..] + slots[cur := s][..0] == Window(history + [s], |slots|)
  {
    var after := slots[cur := s];
    assert after[..cur + 1] == history + [s];
    if cur + 1 == |slots| {
      assert after == after[..cur + 1];
      assert after[0..] + after[..0] == after;
    }
  }

  lemma RingTurns(slots: seq<Sample>, cur: nat, history: seq<Sample>, s: Sample)
    requires cur < |slots| <= |history| && slots[cur..] + slots[..cur] == Window(history, |slots|)
    ensures var next := if cur + 1 == |slots| then 0 else cur + 1;
            slots[cur := s][next..] + slots[cur := s][..next] == Window(history + [s], |slots|)
  {
    var b, after := |slots|, slots[cur := s];
    var ring := slots[cur..] + slots[..cur];
    assert (history + [s])[|history| + 1 - b..] == history[|history| - b..][1..] + [s];
    assert Window(history + [s], b) == ring[1..] + [s];
    if cur + 1 < b {
      assert after[cur + 1..] == slots[cur + 1..] && after[..cur + 1] == slots[..cur] + [s];
    } else {
      assert after[0..] + after[..0] == after == slots[..cur] + [s];
    }
  }

  /** The first min(n, B) slots, in whatever rotation, have the mean and deviations of the window. */
  lemma RingStatistics(slots: seq<Sample>, cur: nat, history: seq<Sample>)
    requires RingHolds(slots, cur, history) && history != []
    ensures var used := slots[..if |history| < |slots| then |history| else |slots|];
            var window := Window(history, |slots|);
            && |used| == |window| > 0
            && multiset(used) == multiset(window)
            && Mean(Durations(used)) == Mean(Durations(window))
            && forall c :: SqDev(Durations(used), c) == SqDev(Durations(window), c)
  {
    if |history| >= |slots| {
      var a, b := slots[..cur], slots[cur..];
      assert slots == a + b && slots[..|slots|] == slots;
      assert Durations(a + b) == Durations(a) + Durations(b);
      assert Durations(b + a) == Durations(b) + Durations(a);
      Rotate(Durations(a), Durations(b));
    }
  }

  /** The durations of the first `n` pairs of time points. */
  function Elapsed(startBuf: seq<int>, endBuf: seq<int>, n: nat): seq<int>
    requires n <= |startBuf| && n <= |endBuf|
  {
    seq(n, i requires 0 <= i < n => endBuf[i] - startBuf[i])
  }

  lemma ElapsedSnoc(startBuf: seq<int>, endBuf: seq<int>, n: nat)
    requires n < |startBuf| && n < |endBuf|
    ensures Elapsed(startBuf, endBuf, n + 1) == Elapsed(startBuf, endBuf, n) + [endBuf[n] - startBuf[n]]
  {
  }

  /** What calculateBasicStatistics reports about `xs`.  The squares are summed in an integer, `sumSq`, so
      each addition drops a fraction: the sum is at most the exact one and short of it by less than the
      number of samples.  The standard error is given by its square. */
  ghost predicate Summarises(xs: seq<int>, size: nat, average: real, variance: real, stdErrSq: real, sumSq: int) {
    && xs != [] && size == |xs|
    && average == Mean(xs)
    && (size == 1 ==> variance == 0.0 && stdErrSq == 0.0)
    && (size > 1 ==>
          && variance == sumSq as real / (size - 1) as real
          && stdErrSq == variance / size as real
          && sumSq >= 0
          && sumSq as real <= SqDev(xs, average) < sumSq as real + size as real)
  }

  method CalculateBasicStatistics(startBuf: seq<int>, endBuf: seq<int>, sampleSz: nat)
    returns (average: real, variance: real, stdErrSq: real, ghost sumSq: int)
    requires 0 < sampleSz <= |startBuf| && |startBuf| == |endBuf|
    ensures Summarises(Elapsed(startBuf, endBuf, sampleSz), sampleSz, average, variance, stdErrSq, sumSq)
    ensures average == Mean(Elapsed(startBuf, endBuf, sampleSz))
    ensures sampleSz > 1 ==>
      var exact := SqDev(Elapsed(startBuf, endBuf, sampleSz), average);
      variance * (sampleSz - 1) as real <= exact < variance * (sampleSz - 1) as real + sampleSz as real
  {
    hide SqDev, Mean;
    average := SampleAverage(startBuf, endBuf, sampleSz);
    sumSq := 0;
    if sampleSz == 1 {
      variance, stdErrSq := 0.0, 0.0;
    } else {
      var total := TruncatedSumOfSquares(startBuf, endBuf, sampleSz, average);
      sumSq := total;
      variance := total as real / (sampleSz - 1) as real;
      stdErrSq := variance / sampleSz as real;
    }
  }

  /** A summary of the slots in use is a summary of the window, however the ring is rotated. */
  lemma SummaryOfWindow(slots: seq<Sample>, cur: nat, history: seq<Sample>, size: nat,
                        average: real, variance: real, stdErrSq: real, sumSq: int)
    requires RingHolds(slots, cur, history) && history != []
    requires size == if |slots| < |history| then |slots| else |history|
    requires Summarises(Durations(slots[..size]), size, average, variance, stdErrSq, sumSq)
    ensures Summarises(Durations(Window(history, |slots|)), size, average, variance, stdErrSq, sumSq)
  {
    RingStatistics(slots, cur, history);
    assert SqDev(Durations(slots[..size]), average) == SqDev(Durations(Window(history, |slots|)), average);
    hide Mean, SqDev, RingHolds, Window;
  }

  /** A summary of positive durations is fit for comparison. */
  lemma SummaryIsMeasured(xs: seq<int>, size: nat, average: real, variance: real, stdErrSq: real, sumSq: int)
    requires Summarises(xs, size, average, variance, stdErrSq, sumSq) && AllPositive(xs)
    ensures Measured(Snapshot(average, variance, size))
  {
    SumPositive(xs);
    hide Sum, SqDev;
  }

  lemma WindowIsPositive(history: seq<Sample>, size: nat)
    requires AllPositive(Durations(history))
    ensures AllPositive(Durations(Window(history, size)))
  {
    var w := Window(history, size);
    forall i | 0 <= i < |w| ensures 0 < Durations(w)[i] < TWO_TO_63 {
      assert w[i] == history[|history| - |w| + i];
      assert Durations(history)[|history| - |w| + i] == Durations(w)[i];
    }
  }

  method SampleAverage(startBuf: seq<int>, endBuf: seq<int>, sampleSz: nat) returns (average: real)
    requires 0 < sampleSz <= |startBuf| && |startBuf| == |endBuf|
    ensures average == Mean(Elapsed(startBuf, endBuf, sampleSz))
  {
    var totalTime := 0;
    for i := 0 to sampleSz
      invariant totalTime == Sum(Elapsed(startBuf, endBuf, i))
    {
      ElapsedSnoc(startBuf, endBuf, i);
      SumSnoc(Elapsed(startBuf, endBuf, i), endBuf[i] - startBuf[i]);
      totalTime := totalTime + (endBuf[i] - startBuf[i]);
    }
    average := totalTime as real / sampleSz as real;
  }

  method TruncatedSumOfSquares(startBuf: seq<int>, endBuf: seq<int>, sampleSz: nat, average: real) returns (total: int)
    requires 0 < sampleSz <= |startBuf| && |startBuf| == |endBuf|
    ensures total >= 0
    ensures total as real <= SqDev(Elapsed(startBuf, endBuf, sampleSz), average) < total as real + sampleSz as real
  {
    total := 0;
    for i := 0 to sampleSz
      invariant total >= 0
      invariant total as real <= SqDev(Elapsed(startBuf, endBuf, i), average)
      invariant SqDev(Elapsed(startBuf, endBuf, i), average) <= total as real + i as real
      invariant i > 0 ==> SqDev(Elapsed(startBuf, endBuf, i), average) < total as real + i as real
    {
      var x := endBuf[i] - startBuf[i];
      ElapsedSnoc(startBuf, endBuf, i);
      SqDevSnoc(Elapsed(startBuf, endBuf, i), x, average);
      SquareNonNegative(x as real - average);
      var square := Square(x as real - average);
      hide Square, SqDev;
      total := (total as real + square).Floor;
    }
  }

  lemma SquareNonNegative(x: real)
    ensures Square(x) >= 0.0
  {
  }

  lemma DurationsSnoc(history: seq<Sample>, s: Sample)
    requires AllPositive(Durations(history)) && 0 < s.end - s.start < TWO_TO_63
    ensures AllPositive(Durations(history + [s]))
  {
    assert Durations(history + [s]) == Durations(history) + [s.end - s.start];
  }

  lemma PrefixKept(history: seq<Sample>, s: Sample, n: nat)
    requires n <= |history|
    ensures (history + [s])[..n] == history[..n]
  {
  }

  /** RecentExecutionTime with its ring buffer, kept as two arrays of time points. */
  class RecentExecutionTime {
    const errPctThreshold: real
    const startBuf: array<int>
    const endBuf: array<int>
    var cur: nat
    var observations: nat
    var deployedTime: nat

    var lastCalc: nat
    var sampleSz: nat
    var average: real
    var sampleVariance: real
    var stdErrSq: real

    ghost var history: seq<Sample>
    ghost var deployedSum: nat
    ghost var sumSq: int

    ghost function Slots(): seq<Sample>
      requires startBuf.Length == endBuf.Length
      reads startBuf, endBuf
    {
      seq(startBuf.Length, i requires 0 <= i < startBuf.Length reads startBuf, endBuf => Sample(startBuf[i], endBuf[i]))
    }

    ghost predicate Valid()
      reads this, startBuf, endBuf
    {
      && startBuf != endBuf
      && startBuf.Length == endBuf.Length > 0
      && observations == |history| && AllPositive(Durations(history))
      && RingHolds(Slots(), cur, history)
      && deployedTime == deployedSum % TWO_TO_64
      && lastCalc <= |history|
      && (lastCalc > 0 ==> Reports(Window(history[..lastCalc], startBuf.Length)))
    }

    /** The cached answers summarise these samples. */
    ghost predicate Reports(window: seq<Sample>)
      reads this
    {
      Summarises(Durations(window), sampleSz, average, sampleVariance, stdErrSq, sumSq)
    }

    constructor (n: nat, errBound: real)
      requires n > 0
      ensures Valid() && fresh(startBuf) && fresh(endBuf)
      ensures startBuf.Length == n && errPctThreshold == errBound && history == [] && deployedSum == 0 && lastCalc == 0
    {
      errPctThreshold := errBound;
      startBuf := new int[n];
      endBuf := new int[n];
      cur, observations, deployedTime := 0, 0, 0;
      lastCalc, sampleSz, average, sampleVariance, stdErrSq := 0, 0, 0.0, 0.0, 0.0;
      history, deployedSum, sumSq := [], 0, 0;
    }

    method WriteSlot(start: int, end: int)
      requires startBuf != endBuf && startBuf.Length == endBuf.Length && cur < startBuf.Length
      modifies startBuf, endBuf
      ensures Slots() == old(Slots())[cur := Sample(start, end)]
    {
      startBuf[cur] := start;
      endBuf[cur] := end;
    }

    method EndMeasurement(start: int, end: int)
      requires Valid() && 0 < end - start < TWO_TO_63
      modifies this`cur, this`observations, this`deployedTime, this`history, this`deployedSum, startBuf, endBuf
      ensures Valid() && history == old(history) + [Sample(start, end)]
      ensures deployedSum == old(deployedSum) + (end - start)
    {
      hide Summarises, Window, NextSlot;
      RingWrite(Slots(), cur, history, Sample(start, end));
      hide RingHolds;
      PrefixKept(history, Sample(start, end), lastCalc);
      DurationsSnoc(history, Sample(start, end));
      WriteSlot(start, end);
      cur := NextSlot(cur, startBuf.Length);
      history := history + [Sample(start, end)];
      observations := observations + 1;
      CountDeployed(end - start);
    }

    /** Without an overflow check, the counter wraps around. */
    method CountDeployed(elapsedTime: nat)
      requires deployedTime == deployedSum % TWO_TO_64
      modifies this`deployedTime, this`deployedSum
      ensures deployedSum == old(deployedSum) + elapsedTime && deployedTime == deployedSum % TWO_TO_64
    {
      deployedTime := WrappingAdd(deployedTime, elapsedTime);
      deployedSum := deployedSum + elapsedTime;
    }

    method ResetDeployedTime()
      requires Valid()
      modifies this`deployedTime, this`deployedSum
      ensures Valid() && deployedTime == 0 && deployedSum == 0
    {
      deployedTime, deployedSum := 0, 0;
    }

    /** updateStats: recompute from a copy of the buffers if there are new observations. */
    method UpdateStats()
      requires Valid()
      modifies this`lastCalc, this`sampleSz, this`average, this`sampleVariance, this`stdErrSq, this`sumSq
      ensures Valid() && lastCalc == observations
      ensures history != [] ==> Reports(Window(history, startBuf.Length))
      ensures history != [] ==> Measured(Snapshot(average, sampleVariance, sampleSz))
    {
      WindowIsPositive(history, startBuf.Length);
      assert history[..|history|] == history;
      hide Summarises, Window, RingHolds, AllPositive;
      if lastCalc != observations {
        lastCalc := observations;
        Recalculate();
      }
      if history != [] {
        SummaryIsMeasured(Durations(Window(history, startBuf.Length)), sampleSz, average, sampleVariance, stdErrSq, sumSq);
      }
    }

    method Recalculate()
      requires startBuf.Length == endBuf.Length > 0 && RingHolds(Slots(), cur, history)
      requires lastCalc == |history| > 0
      modifies this`sampleSz, this`average, this`sampleVariance, this`stdErrSq, this`sumSq
      ensures Reports(Window(history, startBuf.Length))
    {
      hide Summarises, Window;
      sampleSz := if startBuf.Length < lastCalc then startBuf.Length else lastCalc;
      var starts, ends := startBuf[..], endBuf[..];
      assert Elapsed(starts, ends, sampleSz) == Durations(Slots()[..sampleSz]);
      ghost var total;
      average, sampleVariance, stdErrSq, total := CalculateBasicStatistics(starts, ends, sampleSz);
      sumSq := total;
      SummaryOfWindow(Slots(), cur, history, sampleSz, average, sampleVariance, stdErrSq, sumSq);
    }

    /** It is the program's comparison, from the standard error itself. */
    lemma GoodByRoot(root: real)
      requires root >= 0.0 && root * root == stdErrSq && average > 0.0
      ensures GoodQuality() <==> lastCalc > 2 && 100.0 * (root / average) <= errPctThreshold
    {
      ErrorWithinByRoot(stdErrSq, root, average, errPctThreshold);
    }

    /** goodQuality, with the comparison made on squares; see ErrorWithinByRoot. */
    predicate GoodQuality()
      reads this
    {
      lastCalc > DEFAULT_MIN_TRIALS && ErrorWithin(stdErrSq, average, errPctThreshold)
    }
  }
}
