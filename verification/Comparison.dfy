/** The statistical comparison of two versions, and the scan that keeps the best one seen. */
module Comparison {
  import opened Options
  import opened Statistics

  /** What a feedback object reports: mean and variance in nanoseconds, and the sample size. */
  datatype Snapshot = Snapshot(mean: real, variance: real, size: nat)

  const DELTA_RATIO := 0.02
  const THRESH := 1.943

  /** Measured times are positive, so a non-empty sample has a positive mean. */
  predicate Measured(s: Snapshot) {
    s.variance >= 0.0 && (s.size > 0 ==> s.mean > 0.0)
  }

  function ScaledVariance(s: Snapshot): real
    requires s.size > 0
  {
    s.variance / s.size as real
  }

  /** The numerator of the test statistic: how much lower than 98% of their mean my mean is. */
  function Margin(my: Snapshot, other: Snapshot): real {
    other.mean - my.mean - DELTA_RATIO * other.mean
  }

  /** Feedback::betterThan on two snapshots.  The quotient by a square root is compared without the root;
      a zero root makes the quotient infinite or undefined, and an empty sample makes it undefined. */
  predicate BetterThan(my: Snapshot, other: Snapshot) {
    if my.size == 0 || other.size == 0 then false
    else
      var d := Margin(my, other);
      var v := ScaledVariance(other) + ScaledVariance(my);
      if v == 0.0 then d > 0.0 else d >= 0.0 && d * d >= THRESH * THRESH * v
  }

  /** With a positive root at hand, the comparison is the one the program makes: Welch's statistic, over means,
      variances and sample sizes, against 1.943, after 2% of the other's mean. */
  lemma WelchStatistic(my: Snapshot, other: Snapshot, root: real)
    requires my.size > 0 && other.size > 0
    requires root > 0.0 && root * root == other.variance / other.size as real + my.variance / my.size as real
    ensures BetterThan(my, other) <==> (other.mean - my.mean - 0.02 * other.mean) / root >= 1.943
  {
    var d, v := Margin(my, other), ScaledVariance(other) + ScaledVariance(my);
    var q := d / root;
    assert q * root == d;
    SquareLt(0.0, root);
    assert (q * q) * (root * root) == (q * root) * (q * root);
    if q >= THRESH {
      SquareLe(THRESH, q);
      ScaleLe(THRESH * THRESH, q * q, v);
      assert d > 0.0;
    } else if q >= 0.0 {
      SquareLt(q, THRESH);
      ScaleLt(q * q, THRESH * THRESH, v);
    } else {
      assert d < 0.0;
    }
  }

  /** Without variance a non-empty sample is better by any margin beyond the 2%; an empty sample is not better
      and nothing is better than it. */
  lemma WithoutVariance(my: Snapshot, other: Snapshot)
    ensures my.size == 0 || other.size == 0 ==> !BetterThan(my, other)
    ensures my.size > 0 && other.size > 0 && my.variance == 0.0 && other.variance == 0.0 ==>
      (BetterThan(my, other) <==> other.mean - my.mean > 0.02 * other.mean)
  {
  }

  lemma ScaledVarianceNonNegative(s: Snapshot)
    requires s.size > 0 && s.variance >= 0.0
    ensures ScaledVariance(s) >= 0.0
  {
  }

  /** Among non-negative variances both branches read: the margin is positive and its square is large enough. */
  lemma BetterMeans(my: Snapshot, other: Snapshot)
    requires my.size > 0 && other.size > 0 && my.variance >= 0.0 && other.variance >= 0.0
    ensures BetterThan(my, other) <==>
      && Margin(my, other) > 0.0
      && Margin(my, other) * Margin(my, other) >= THRESH * THRESH * (ScaledVariance(other) + ScaledVariance(my))
  {
    ScaledVarianceNonNegative(my);
    ScaledVarianceNonNegative(other);
  }

  lemma Irreflexive(a: Snapshot)
    requires Measured(a)
    ensures !BetterThan(a, a)
  {
    if a.size > 0 {
      assert Margin(a, a) == -DELTA_RATIO * a.mean;
      assert Margin(a, a) < 0.0;
    }
  }

  lemma SumOfSquares(x: real, y: real, z: real)
    requires x >= 0.0 && y >= 0.0 && z >= 0.0
    ensures (x + y + z) * (x + y + z) >= x * x + y * y
  {
    var w := x + y;
    assert w * w == x * x + y * y + 2.0 * (x * y);
    assert x * y >= 0.0;
    assert (w + z) * (w + z) == w * w + 2.0 * (w * z) + z * z;
    assert w * z >= 0.0 && z * z >= 0.0;
  }

  /** The 2% margin and the pairwise variances do not break transitivity. */
  lemma Transitive(a: Snapshot, b: Snapshot, c: Snapshot)
    requires Measured(a) && Measured(b) && Measured(c)
    requires BetterThan(a, b) && BetterThan(b, c)
    ensures BetterThan(a, c)
  {
    BetterMeans(a, b);
    BetterMeans(b, c);
    BetterMeans(a, c);
    ScaledVarianceNonNegative(b);
    var x, y, z := Margin(a, b), Margin(b, c), DELTA_RATIO * b.mean;
    assert Margin(a, c) == x + y + z;
    SumOfSquares(x, y, z);
    var t := THRESH * THRESH;
    var va, vb, vc := ScaledVariance(a), ScaledVariance(b), ScaledVariance(c);
    assert t * (vb + va) + t * (vc + vb) >= t * (vc + va) by {
      assert t * (vb + va) + t * (vc + vb) == t * (vc + va) + t * (2.0 * vb);
    }
  }

  lemma Asymmetric(a: Snapshot, b: Snapshot)
    requires Measured(a) && Measured(b)
    requires BetterThan(a, b)
    ensures !BetterThan(b, a)
  {
    if BetterThan(b, a) {
      Transitive(a, b, a);
      Irreflexive(a);
    }
  }

  /** Tuner::bestSeen: one scan over the entries in order, by position. */
  method BestSeen(entries: seq<Snapshot>) returns (best: Option<nat>)
    requires forall i :: 0 <= i < |entries| ==> Measured(entries[i])
    ensures best.None? <==> entries == []
    ensures best.Some? ==> best.value < |entries|
    ensures best.Some? ==> forall i :: 0 <= i < |entries| ==> !BetterThan(entries[i], entries[best.value])
    ensures best.Some? && best.value != 0 ==> BetterThan(entries[best.value], entries[0])
    ensures entries != [] && entries[0].size == 0 ==> best == Some(0)
  {
    best := None;
    for k := 0 to |entries|
      invariant best.None? <==> k == 0
      invariant best.Some? ==> best.value < k
      invariant best.Some? ==> forall i :: 0 <= i < k ==> !BetterThan(entries[i], entries[best.value])
      invariant best.Some? && best.value != 0 ==> BetterThan(entries[best.value], entries[0])
    {
      if best.None? {
        Irreflexive(entries[k]);
        best := Some(k);
      } else if BetterThan(entries[k], entries[best.value]) {
        forall i | 0 <= i <= k ensures !BetterThan(entries[i], entries[k]) {
          Irreflexive(entries[k]);
          if i < k && BetterThan(entries[i], entries[k]) {
            Transitive(entries[i], entries[k], entries[best.value]);
          }
        }
        if best.value != 0 {
          Transitive(entries[k], entries[best.value], entries[0]);
        }
        best := Some(k);
      }
    }
  }
}
