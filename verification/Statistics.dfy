/** Sums, means and squared deviations of a history of samples, and the algebra of their updates. */
module Statistics {
  function Sum(xs: seq<int>): int {
    if xs == [] then 0 else Sum(xs[..|xs| - 1]) + xs[|xs| - 1]
  }

  function Mean(xs: seq<int>): real
    requires xs != []
  {
    Sum(xs) as real / |xs| as real
  }

  function Square(x: real): real { x * x }

  /** The sum of squared deviations from `c`. */
  function SqDev(xs: seq<int>, c: real): real {
    if xs == [] then 0.0 else SqDev(xs[..|xs| - 1], c) + Square(xs[|xs| - 1] as real - c)
  }

  lemma SumSnoc(xs: seq<int>, x: int)
    ensures Sum(xs + [x]) == Sum(xs) + x
  {
    assert (xs + [x])[..|xs|] == xs;
  }

  lemma SqDevSnoc(xs: seq<int>, x: int, c: real)
    ensures SqDev(xs + [x], c) == SqDev(xs, c) + Square(x as real - c)
  {
    assert (xs + [x])[..|xs|] == xs;
  }

  lemma SqDevNonNegative(xs: seq<int>, c: real)
    ensures SqDev(xs, c) >= 0.0
  {
  }

  lemma {:induction false} SumPositive(xs: seq<int>)
    requires xs != [] && forall i :: 0 <= i < |xs| ==> xs[i] > 0
    ensures Sum(xs) > 0
    decreases |xs|
  {
    if |xs| > 1 { SumPositive(xs[..|xs| - 1]); }
  }

  function SumSq(xs: seq<int>): real {
    if xs == [] then 0.0 else SumSq(xs[..|xs| - 1]) + Square(xs[|xs| - 1] as real)
  }

  /** The sum of squared deviations as a polynomial in the centre. */
  lemma {:induction false} Expand(xs: seq<int>, c: real)
    ensures SqDev(xs, c) == SumSq(xs) - 2.0 * (c * Sum(xs) as real) + |xs| as real * Square(c)
    decreases |xs|
  {
    if xs != [] {
      var n := |xs| - 1;
      assert SqDev(xs, c) == SqDev(xs[..n], c) + Square(xs[n] as real - c);
      assert SumSq(xs) == SumSq(xs[..n]) + Square(xs[n] as real);
      assert Sum(xs) as real == Sum(xs[..n]) as real + xs[n] as real;
      hide *;
      Expand(xs[..n], c);
      ExpandAlgebra(Sum(xs[..n]) as real, xs[n] as real, n as real, c);
    }
  }

  lemma ExpandAlgebra(s: real, x: real, n: real, c: real)
    ensures Square(x - c) == Square(x) - 2.0 * (c * x) + Square(c)
    ensures c * (s + x) == c * s + c * x
    ensures (n + 1.0) * Square(c) == n * Square(c) + Square(c)
  {
  }

  lemma RecentreAlgebra(n: real, m: real, c: real, s: real)
    requires s == n * m
    ensures n * Square(c) - 2.0 * (c * s) == n * Square(m) - 2.0 * (m * s) + n * Square(m - c)
  {
    assert Square(m - c) == m * m - 2.0 * (m * c) + c * c;
    assert n * Square(m - c) == n * (m * m) - 2.0 * (n * (m * c)) + n * (c * c);
    assert m * s == n * (m * m);
    assert c * s == n * (m * c);
  }

  lemma RecentreAtMean(xs: seq<int>, c: real)
    requires xs != []
    ensures SqDev(xs, c) == SqDev(xs, Mean(xs)) + |xs| as real * Square(Mean(xs) - c)
  {
    hide *;
    var m := Mean(xs);
    MeanTimesSize(xs);
    Expand(xs, c);
    Expand(xs, m);
    RecentreAlgebra(|xs| as real, m, c, Sum(xs) as real);
  }

  lemma MeanTimesSize(xs: seq<int>)
    requires xs != []
    ensures |xs| as real * Mean(xs) == Sum(xs) as real
  {
  }

  /** The online update of the mean. */
  lemma MeanSnoc(xs: seq<int>, x: int)
    requires xs != []
    ensures Mean(xs + [x]) == (x as real + |xs| as real * Mean(xs)) / (|xs| + 1) as real
  {
    SumSnoc(xs, x);
  }

  lemma MeanCleared(xs: seq<int>, x: int)
    requires xs != []
    ensures Mean(xs + [x]) * (|xs| as real + 1.0) == x as real + |xs| as real * Mean(xs)
  {
    MeanSnoc(xs, x);
  }

  /** The online update of the sum of squared deviations: one product of the deviations from the old and
      from the new mean. */
  lemma WelfordStep(xs: seq<int>, x: int)
    requires xs != []
    ensures SqDev(xs + [x], Mean(xs + [x]))
         == SqDev(xs, Mean(xs)) + (x as real - Mean(xs)) * (x as real - Mean(xs + [x]))
  {
    hide *;
    var n, m, m', v := |xs| as real, Mean(xs), Mean(xs + [x]), x as real;
    RecentreAtMean(xs, m');
    SqDevSnoc(xs, x, m');
    MeanCleared(xs, x);
    WelfordAlgebra(n, m, m', v);
  }

  lemma WelfordAlgebra(n: real, m: real, m': real, v: real)
    requires m' * (n + 1.0) == v + n * m
    ensures n * Square(m - m') + Square(v - m') == (v - m) * (v - m')
  {
    // v - m' == n * (m' - m), so both sides are n * (n + 1) * (m' - m)^2
    var d := m' - m;
    assert v - m' == n * d;
    assert v - m == n * d + d;
    assert Square(v - m') == (n * d) * (n * d);
    assert Square(m - m') == d * d;
    assert n * (d * d) == (n * d) * d;
    assert (n * d + d) * (n * d) == (n * d) * (n * d) + (n * d) * d;
  }

  /** Sums do not depend on where a window is cut and rotated. */
  lemma {:induction false} SumConcat(a: seq<int>, b: seq<int>)
    ensures Sum(a + b) == Sum(a) + Sum(b)
    decreases |b|
  {
    if b == [] {
      assert a + b == a;
    } else {
      var n := |b| - 1;
      assert a + b == (a + b[..n]) + [b[n]];
      SumSnoc(a + b[..n], b[n]);
      SumConcat(a, b[..n]);
    }
  }

  lemma {:induction false} SqDevConcat(a: seq<int>, b: seq<int>, c: real)
    ensures SqDev(a + b, c) == SqDev(a, c) + SqDev(b, c)
    decreases |b|
  {
    if b == [] {
      assert a + b == a;
    } else {
      var n := |b| - 1;
      assert a + b == (a + b[..n]) + [b[n]];
      SqDevSnoc(a + b[..n], b[n], c);
      SqDevConcat(a, b[..n], c);
    }
  }

  lemma Rotate(a: seq<int>, b: seq<int>)
    requires a + b != []
    ensures Mean(a + b) == Mean(b + a)
    ensures forall c :: SqDev(a + b, c) == SqDev(b + a, c)
  {
    SumConcat(a, b);
    SumConcat(b, a);
    forall c ensures SqDev(a + b, c) == SqDev(b + a, c) {
      SqDevConcat(a, b, c);
      SqDevConcat(b, a, c);
    }
  }

  /** Removing the square roots from a comparison of 100 * stdErr / mean with a bound. */
  lemma PercentWithoutRoot(errSq: real, root: real, mean: real, bound: real)
    requires root >= 0.0 && root * root == errSq && mean > 0.0 && bound >= 0.0
    ensures 100.0 * (root / mean) <= bound <==> 10_000.0 * errSq <= Square(bound * mean)
  {
    var l, r := 100.0 * root, bound * mean;
    assert l * l == 10_000.0 * errSq;
    var q := root / mean;
    assert q * mean == root;
    if 100.0 * q <= bound {
      assert l == (100.0 * q) * mean;
      ScaleLe(100.0 * q, bound, mean);
      SquareLe(l, r);
    } else {
      ScaleLt(bound, 100.0 * q, mean);
      assert r < l;
      SquareLt(r, l);
    }
  }

  lemma ScaleLe(a: real, b: real, c: real)
    requires a <= b && c > 0.0
    ensures a * c <= b * c
  {
  }

  lemma ScaleLt(a: real, b: real, c: real)
    requires a < b && c > 0.0
    ensures a * c < b * c
  {
  }

  lemma SquareLt(a: real, b: real)
    requires 0.0 <= a < b
    ensures a * a < b * b
  {
    assert b * b - a * a == (b - a) * (b + a);
    ScaleLt(0.0, b - a, b + a);
  }

  lemma SquareLe(a: real, b: real)
    requires 0.0 <= a <= b
    ensures a * a <= b * b
  {
    if a < b { SquareLt(a, b); }
  }
}
