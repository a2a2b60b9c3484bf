/** The baseline calibrator: an online mean and variance of one metric and the threshold
    drawn from them. Floating point is modelled by real numbers; the square root enters as a
    parameter with the property that defines it. */
module Calibration {
  import opened Basics

  const MIN_SAMPLES: nat := 60
  const K_SIGMA: real := 3.0
  const MEM_THRESHOLD_MIN: int := 50
  const MEM_THRESHOLD_MAX: int := 95
  const U32_MAX: nat := 0xFFFF_FFFF
  const CALIBRATION_WINDOW_SECS: nat := 180

  datatype Stats = Stats(count: nat, mean: real, m2: real, min: u32, max: u32)

  const NO_SAMPLES := Stats(0, 0.0, 0.0, U32_MAX, 0)

  function Min(a: u32, b: u32): u32 { if a < b then a else b }

  function Max(a: u32, b: u32): u32 { if a > b then a else b }

  function Observe(s: Stats, value: u32): Stats {
    var n := s.count + 1;
    var x := value as real;
    var mean := s.mean + Ratio(x - s.mean, n as real);
    Stats(n, mean, s.m2 + (x - s.mean) * (x - mean), Min(s.min, value), Max(s.max, value))
  }

  /** The statistics after a sequence of samples. */
  function Welford(samples: seq<u32>): Stats {
    if samples == [] then NO_SAMPLES else Observe(Welford(samples[..|samples| - 1]), samples[|samples| - 1])
  }

  // ---------------------------------------------------------------- facts about real products

  function Squared(x: real): real { x * x }

  lemma Square(d: real)
    ensures Squared(d) >= 0.0
    ensures Squared(d) == 0.0 <==> d == 0.0
  {
    if d != 0.0 {
      SquarePositive(d);
    }
  }

  function Product(a: real, b: real): real { a * b }

  lemma ProductPositive(a: real, b: real)
    requires a > 0.0 && b > 0.0
    ensures Product(a, b) > 0.0
  {}

  lemma SquarePositive(d: real)
    requires d != 0.0
    ensures Squared(d) > 0.0
  {
    if d > 0.0 {
      ProductPositive(d, d);
      assert Squared(d) == Product(d, d);
    } else {
      ProductPositive(-d, -d);
      assert Product(-d, -d) == Product(d, d);
    }
  }

  lemma SquareStrict(a: real, b: real)
    requires 0.0 <= a < b
    ensures Squared(a) < Squared(b)
  {
    var p, q := b - a, b + a;
    ProductPositive(p, q);
    assert b == a + p && q == a + a + p;
    assert Squared(b) == a * a + p * q;
  }

  lemma ProductNonNegative(a: real, b: real)
    requires a >= 0.0 && b >= 0.0
    ensures a * b >= 0.0
  {}

  lemma ProductStrict(a: real, b: real, c: real)
    requires a < b && c > 0.0
    ensures a * c < b * c
  {
    ProductPositive(b - a, c);
    assert (b - a) * c == b * c - a * c;
  }

  lemma Quotient(x: real, n: real)
    requires n > 0.0
    ensures x / n * n == x
  {}

  // ---------------------------------------------------------------- batch formulas

  function Sum(s: seq<u32>): real {
    if s == [] then 0.0 else Sum(s[..|s| - 1]) + s[|s| - 1] as real
  }

  /** Sum of squared deviations from `c`. */
  function Deviations(s: seq<u32>, c: real): real {
    if s == [] then 0.0 else Deviations(s[..|s| - 1], c) + Squared(s[|s| - 1] as real - c)
  }

  function Mean(s: seq<u32>): real
    requires s != []
  {
    Ratio(Sum(s), |s| as real)
  }

  function Ratio(x: real, n: real): real
    requires n > 0.0
  {
    x / n
  }

  /** The mean and `m2` of `n` samples expressed by their sum and the sum of their squares. */
  predicate HasMoments(w: Stats, n: real, sum: real, squares: real) {
    w.mean * n == sum && w.m2 == squares - n * w.mean * w.mean
  }

  /** The binomial expansion of the squared deviations. */
  predicate Expanded(dev: real, c: real, n: real, sum: real, squares: real) {
    dev == squares - 2.0 * c * sum + n * c * c
  }

  lemma ExpandedStep(dev: real, c: real, n: real, sum: real, squares: real, x: real)
    requires Expanded(dev, c, n, sum, squares)
    ensures Expanded(dev + Squared(x - c), c, n + 1.0, sum + x, squares + Squared(x))
  {
    assert Squared(x - c) == x * x - 2.0 * c * x + c * c;
  }

  lemma {:induction false} DeviationsExpand(s: seq<u32>, c: real)
    ensures Expanded(Deviations(s, c), c, |s| as real, Sum(s), Deviations(s, 0.0))
  {
    if s != [] {
      var front := s[..|s| - 1];
      DeviationsExpand(front, c);
      ExpandedStep(Deviations(front, c), c, |front| as real, Sum(front), Deviations(front, 0.0), s[|s| - 1] as real);
    }
  }

  /** The algebra of one update, from `k` to `k + 1` samples: `e` is the step of the mean. */
  lemma UpdateIdentity(k: real, m: real, x: real, e: real, m2: real, squares: real)
    requires (k + 1.0) * e == x - m && m2 == squares - k * m * m
    ensures (m + e) * (k + 1.0) == m * k + x
    ensures m2 + (x - m) * (x - (m + e)) == squares + x * x - (k + 1.0) * (m + e) * (m + e)
  {
    var n, d := k + 1.0, x - m;
    assert (m + e) * n == m * k + m + n * e;
    assert n * (m + e) == n * m + d;
    assert n * (m + e) * (m + e) == (n * m + d) * (m + e);
    assert (n * m + d) * (m + e) == n * m * m + (n * e) * m + d * m + d * e;
    assert n * m * m == k * m * m + m * m;
    assert x * x == m * m + 2.0 * (d * m) + d * d;
    assert d * (d - e) == d * d - d * e;
    assert x - (m + e) == d - e;
  }

  lemma UpdateKeepsMoments(k: real, m: real, x: real, e: real, m2: real, sum: real, squares: real)
    requires e * (k + 1.0) == x - m && m * k == sum && m2 == squares - k * m * m
    ensures (m + e) * (k + 1.0) == sum + x
    ensures m2 + (x - m) * (x - (m + e)) == squares + Squared(x) - (k + 1.0) * (m + e) * (m + e)
  {
    UpdateIdentity(k, m, x, e, m2, squares);
  }

  /** One update keeps the moments. */
  lemma ObserveKeepsMoments(w: Stats, value: u32, sum: real, squares: real)
    requires HasMoments(w, w.count as real, sum, squares)
    ensures HasMoments(Observe(w, value), w.count as real + 1.0, sum + value as real, squares + Squared(value as real))
  {
    var x, k := value as real, w.count as real;
    var e := Ratio(x - w.mean, k + 1.0);
    Quotient(x - w.mean, k + 1.0);
    UpdateKeepsMoments(k, w.mean, x, e, w.m2, sum, squares);
    assert (w.count + 1) as real == k + 1.0;
  }

  lemma {:induction false} WelfordCounts(s: seq<u32>)
    ensures Welford(s).count == |s|
  {
    if s != [] {
      WelfordCounts(s[..|s| - 1]);
    }
  }

  lemma {:induction false} Moments(s: seq<u32>)
    ensures HasMoments(Welford(s), |s| as real, Sum(s), Deviations(s, 0.0))
  {
    if s != [] {
      var front := s[..|s| - 1];
      Moments(front);
      WelfordCounts(front);
      ObserveKeepsMoments(Welford(front), s[|s| - 1], Sum(front), Deviations(front, 0.0));
    }
  }

  lemma BatchIdentity(w: Stats, n: real, sum: real, squares: real, dev: real)
    requires n > 0.0 && HasMoments(w, n, sum, squares) && Expanded(dev, w.mean, n, sum, squares)
    ensures w.mean == Ratio(sum, n) && w.m2 == dev
  {
    Quotient(sum, n);
    DetermineMean(w.mean, sum / n, n, sum);
    assert w.mean * sum == n * w.mean * w.mean;
  }

  /** After any non-empty sample sequence the mean is the average and `m2` is the sum of the
      squared deviations from it. */
  lemma WelfordIsBatch(s: seq<u32>)
    requires s != []
    ensures Welford(s).mean == Mean(s)
    ensures Welford(s).m2 == Deviations(s, Mean(s))
  {
    Moments(s);
    DeviationsExpand(s, Welford(s).mean);
    BatchIdentity(Welford(s), |s| as real, Sum(s), Deviations(s, 0.0), Deviations(s, Welford(s).mean));
  }

  // ---------------------------------------------------------------- order does not matter

  lemma {:induction false} SumConcat(a: seq<u32>, b: seq<u32>)
    ensures Sum(a + b) == Sum(a) + Sum(b)
    ensures Deviations(a + b, 0.0) == Deviations(a, 0.0) + Deviations(b, 0.0)
  {
    if b == [] {
      assert a + b == a;
    } else {
      assert (a + b)[..|a + b| - 1] == a + b[..|b| - 1];
      SumConcat(a, b[..|b| - 1]);
    }
  }

  lemma {:induction false} Extremes(s: seq<u32>)
    ensures s != [] ==> Welford(s).min in s && Welford(s).max in s
    ensures s == [] ==> Welford(s).min == U32_MAX && Welford(s).max == 0
    ensures forall i | 0 <= i < |s| :: Welford(s).min <= s[i] <= Welford(s).max
  {
    if s != [] {
      var front := s[..|s| - 1];
      Extremes(front);
      assert forall i | 0 <= i < |front| :: front[i] == s[i];
      assert s[|s| - 1] in s;
      assert front != [] ==> Welford(front).min in s && Welford(front).max in s;
    }
  }

  lemma SumOfOne(x: u32)
    ensures Sum([x]) == x as real && Deviations([x], 0.0) == Squared(x as real)
  {
    assert [x][..0] == [];
    assert x as real - 0.0 == x as real;
  }

  lemma SumWithout(a: seq<u32>, x: u32, b: seq<u32>)
    ensures Sum(a + [x] + b) == Sum(a + b) + x as real
    ensures Deviations(a + [x] + b, 0.0) == Deviations(a + b, 0.0) + Squared(x as real)
  {
    SumConcat(a + [x], b);
    SumConcat(a, [x]);
    SumConcat(a, b);
    SumOfOne(x);
  }

  lemma RemoveOne(front: seq<u32>, x: u32, l: seq<u32>, r: seq<u32>)
    requires multiset(front + [x]) == multiset(l + [x] + r)
    ensures multiset(front) == multiset(l + r)
  {
    assert multiset(front + [x]) == multiset(front) + multiset{x};
    assert multiset(l + [x] + r) == multiset(l) + multiset{x} + multiset(r);
    assert multiset(l + r) == multiset(l) + multiset(r);
    assert multiset(front) == multiset(front) + multiset{x} - multiset{x};
    assert multiset(l + r) == multiset(l) + multiset{x} + multiset(r) - multiset{x};
  }

  lemma {:induction false} SumsOfPermutation(a: seq<u32>, b: seq<u32>)
    requires multiset(a) == multiset(b)
    ensures |a| == |b| && Sum(a) == Sum(b) && Deviations(a, 0.0) == Deviations(b, 0.0)
    decreases |a|
  {
    assert |multiset(a)| == |a| && |multiset(b)| == |b|;
    if a != [] {
      var x, front := a[|a| - 1], a[..|a| - 1];
      assert a == front + [x];
      assert x in multiset(b);
      var i :| 0 <= i < |b| && b[i] == x;
      var l, r := b[..i], b[i + 1..];
      assert b == l + [x] + r;
      RemoveOne(front, x, l, r);
      SumsOfPermutation(front, l + r);
      SumWithout(l, x, r);
      SumOfOne(x);
      SumConcat(front, [x]);
    }
  }

  lemma DetermineMean(m: real, k: real, n: real, sum: real)
    requires n > 0.0 && m * n == sum && k * n == sum
    ensures m == k
  {
    if m < k {
      ProductStrict(m, k, n);
    } else if k < m {
      ProductStrict(k, m, n);
    }
  }

  lemma DetermineStats(v: Stats, w: Stats, n: real, sum: real, squares: real)
    requires n > 0.0 && HasMoments(v, n, sum, squares) && HasMoments(w, n, sum, squares)
    ensures v.mean == w.mean && v.m2 == w.m2
  {
    DetermineMean(v.mean, w.mean, n, sum);
  }

  /** The statistics depend on the samples only, not on the order in which they came. */
  lemma WelfordIgnoresOrder(a: seq<u32>, b: seq<u32>)
    requires multiset(a) == multiset(b)
    ensures Welford(a) == Welford(b)
  {
    SumsOfPermutation(a, b);
    if a != [] {
      Moments(a);
      Moments(b);
      DetermineStats(Welford(a), Welford(b), |a| as real, Sum(a), Deviations(a, 0.0));
      SameMembers(a, b);
      SameExtremes(a, b);
      WelfordCounts(a);
      WelfordCounts(b);
    }
  }

  lemma SameMembers(a: seq<u32>, b: seq<u32>)
    requires multiset(a) == multiset(b)
    ensures forall x :: x in a <==> x in b
  {
    assert forall x :: x in a <==> x in multiset(a);
    assert forall x :: x in b <==> x in multiset(b);
  }

  lemma SameExtremes(a: seq<u32>, b: seq<u32>)
    requires a != [] && b != [] && forall x :: x in a <==> x in b
    ensures Welford(a).min == Welford(b).min && Welford(a).max == Welford(b).max
  {
    Extremes(a);
    Extremes(b);
    assert Welford(a).min in b && Welford(b).min in a && Welford(a).max in b && Welford(b).max in a;
  }

  // ---------------------------------------------------------------- spread

  lemma {:induction false} DeviationsNonNegative(s: seq<u32>, c: real)
    ensures Deviations(s, c) >= 0.0
    ensures Deviations(s, c) == 0.0 <==> forall i | 0 <= i < |s| :: s[i] as real == c
  {
    if s != [] {
      var front := s[..|s| - 1];
      DeviationsNonNegative(front, c);
      Square(s[|s| - 1] as real - c);
      assert forall i | 0 <= i < |front| :: front[i] == s[i];
    }
  }

  /** `m2` is never negative, and it is zero exactly when no two samples differ, which is when
      the largest equals the smallest. */
  lemma SpreadIsZeroIffConstant(s: seq<u32>)
    requires s != []
    ensures Welford(s).m2 >= 0.0
    ensures Welford(s).m2 == 0.0 <==> Welford(s).max == Welford(s).min
    ensures Welford(s).max == Welford(s).min <==> forall i, j | 0 <= i < |s| && 0 <= j < |s| :: s[i] == s[j]
  {
    WelfordIsBatch(s);
    DeviationsNonNegative(s, Mean(s));
    Extremes(s);
    if forall i, j | 0 <= i < |s| && 0 <= j < |s| :: s[i] == s[j] {
      MeanOfEqual(s, s[0]);
      assert Welford(s).max == s[0] && Welford(s).min == s[0];
    }
    if Welford(s).m2 == 0.0 {
      assert forall i | 0 <= i < |s| :: s[i] as real == Mean(s);
    }
    if Welford(s).max == Welford(s).min {
      assert forall i | 0 <= i < |s| :: s[i] == Welford(s).max;
    }
  }

  lemma {:induction false} SumOfEqual(s: seq<u32>, x: u32)
    requires forall i | 0 <= i < |s| :: s[i] == x
    ensures Sum(s) == |s| as real * x as real
  {
    if s != [] {
      SumOfEqual(s[..|s| - 1], x);
    }
  }

  lemma MeanOfEqual(s: seq<u32>, x: u32)
    requires s != [] && forall i | 0 <= i < |s| :: s[i] == x
    ensures Mean(s) == x as real
  {
    SumOfEqual(s, x);
    Quotient(Sum(s), |s| as real);
    DetermineMean(Mean(s), x as real, |s| as real, Sum(s));
  }

  /** Every sample `x` has `(hi - x) * (x - lo) >= 0`; this is the sum of those products. */
  predicate Bracketed(n: real, hi: real, lo: real, sum: real, squares: real) {
    (hi + lo) * sum - squares - n * hi * lo >= 0.0
  }

  lemma BracketedStep(n: real, hi: real, lo: real, sum: real, squares: real, x: real)
    requires Bracketed(n, hi, lo, sum, squares) && lo <= x <= hi
    ensures Bracketed(n + 1.0, hi, lo, sum + x, squares + Squared(x))
  {
    ProductNonNegative(hi - x, x - lo);
    assert (hi - x) * (x - lo) == (hi + lo) * x - x * x - hi * lo;
  }

  lemma {:induction false} BetweenExtremes(s: seq<u32>, lo: real, hi: real)
    requires forall i | 0 <= i < |s| :: lo <= s[i] as real <= hi
    ensures Bracketed(|s| as real, hi, lo, Sum(s), Deviations(s, 0.0))
  {
    if s != [] {
      var front := s[..|s| - 1];
      BetweenExtremes(front, lo, hi);
      BracketedStep(|front| as real, hi, lo, Sum(front), Deviations(front, 0.0), s[|s| - 1] as real);
    }
  }

  function Variance(w: Stats): real
    requires w.count > 0
  {
    Ratio(w.m2, w.count as real)
  }

  /** How far `m` is inside `[lo, hi]`. */
  function Slack(lo: real, m: real, hi: real): real { (hi - m) * (m - lo) }

  lemma BoundIdentity(n: real, m: real, hi: real, lo: real, sum: real, squares: real, m2: real)
    requires m * n == sum && m2 == squares - n * m * m
    requires (hi + lo) * sum - squares - n * hi * lo >= 0.0
    ensures m2 <= n * ((hi - m) * (m - lo))
  {
    var p := (hi - m) * (m - lo);
    assert p == (hi + lo) * m - m * m - hi * lo;
    assert n * p == n * ((hi + lo) * m) - n * (m * m) - n * (hi * lo);
    assert n * ((hi + lo) * m) == (hi + lo) * (m * n);
    assert n * (m * m) == n * m * m && n * (hi * lo) == n * hi * lo;
  }

  lemma VarianceArithmetic(w: Stats, n: real, hi: real, lo: real, sum: real, squares: real)
    requires n > 0.0 && HasMoments(w, n, sum, squares) && Bracketed(n, hi, lo, sum, squares)
    ensures Ratio(w.m2, n) <= Slack(lo, w.mean, hi)
  {
    BoundIdentity(n, w.mean, hi, lo, sum, squares, w.m2);
    DivideBound(w.m2, n, Slack(lo, w.mean, hi));
  }

  /** The variance is at most the product of the mean's distances from the two extremes. */
  lemma VarianceBound(s: seq<u32>)
    requires s != []
    ensures Welford(s).count == |s|
    ensures Variance(Welford(s)) <= Slack(Welford(s).min as real, Welford(s).mean, Welford(s).max as real)
  {
    Extremes(s);
    Moments(s);
    WelfordCounts(s);
    BetweenExtremes(s, Welford(s).min as real, Welford(s).max as real);
    VarianceArithmetic(Welford(s), |s| as real, Welford(s).max as real, Welford(s).min as real, Sum(s), Deviations(s, 0.0));
  }

  lemma DivideBound(x: real, n: real, b: real)
    requires n > 0.0 && x <= n * b
    ensures x / n <= b
  {
    Quotient(x, n);
    if x / n > b {
      ProductStrict(b, x / n, n);
    }
  }

  // ---------------------------------------------------------------- the threshold

  /** How many samples lie strictly above `c`. */
  function CountAbove(s: seq<u32>, c: real): nat {
    if s == [] then 0 else CountAbove(s[..|s| - 1], c) + if s[|s| - 1] as real > c then 1 else 0
  }

  /** What `k` samples further than `t` from the mean contribute. */
  function Times(k: nat, t: real): real { k as real * Squared(t) }

  lemma OneMore(k: nat, t: real)
    ensures Times(k + 1, t) == Times(k, t) + Squared(t)
  {
    assert (k + 1) as real == k as real + 1.0;
  }

  lemma TimesStep(k: nat, t: real, d: real, dev: real)
    requires t >= 0.0 && Times(k, t) <= dev
    ensures Times(k, t) <= dev + Squared(d)
    ensures d > t ==> Times(k + 1, t) <= dev + Squared(d)
  {
    Square(d);
    OneMore(k, t);
    if d > t {
      SquareStrict(t, d);
    }
  }

  lemma {:induction false} AboveContributes(s: seq<u32>, m: real, t: real)
    requires t >= 0.0
    ensures Times(CountAbove(s, m + t), t) <= Deviations(s, m)
  {
    if s != [] {
      var front := s[..|s| - 1];
      AboveContributes(front, m, t);
      TimesStep(CountAbove(front, m + t), t, s[|s| - 1] as real - m, Deviations(front, m));
    }
  }

  /** `sigma` is the non-negative square root of the variance. */
  predicate IsStdDev(w: Stats, sigma: real) {
    sigma >= 0.0 && if w.count == 0 then sigma == 0.0 else Squared(sigma) == Variance(w)
  }

  /** The mean of the squared deviations of all samples, without the correction for a sample. */
  lemma StdDevOfSamples(s: seq<u32>, sigma: real)
    requires s != [] && IsStdDev(Welford(s), sigma)
    ensures sigma >= 0.0 && Squared(sigma) == Ratio(Deviations(s, Mean(s)), |s| as real)
  {
    WelfordCounts(s);
    WelfordIsBatch(s);
  }

  /** That determines it. */
  lemma StdDevUnique(w: Stats, a: real, b: real)
    requires IsStdDev(w, a) && IsStdDev(w, b)
    ensures a == b
  {
    if a < b {
      SquareStrict(a, b);
    } else if b < a {
      SquareStrict(b, a);
    }
  }

  lemma NineTimes(k: nat, sigma: real)
    ensures Times(k, K_SIGMA * sigma) == 9.0 * k as real * Squared(sigma)
  {
    var v := sigma * sigma;
    assert (3.0 * sigma) * (3.0 * sigma) == 9.0 * v;
  }

  lemma Cancel(a: real, n: real, v: real, m2: real)
    requires n > 0.0 && v > 0.0 && v == Ratio(m2, n) && a * v <= m2
    ensures a <= n
  {
    Quotient(m2, n);
    if a > n {
      ProductStrict(n, a, v);
    }
  }

  lemma Chebyshev(k: nat, n: real, sigma: real, m2: real)
    requires n > 0.0 && sigma > 0.0 && Squared(sigma) == Ratio(m2, n)
    requires Times(k, K_SIGMA * sigma) <= m2
    ensures 9.0 * k as real <= n
  {
    Square(sigma);
    NineTimes(k, sigma);
    Cancel(9.0 * k as real, n, Squared(sigma), m2);
  }

  /** At most one sample in nine lies more than three standard deviations above the mean. */
  lemma FewSamplesAbove(s: seq<u32>, sigma: real)
    requires s != [] && IsStdDev(Welford(s), sigma) && sigma > 0.0
    ensures 9 * CountAbove(s, Welford(s).mean + 3.0 * sigma) <= |s|
  {
    WelfordIsBatch(s);
    WelfordCounts(s);
    AboveContributes(s, Welford(s).mean, K_SIGMA * sigma);
    Chebyshev(CountAbove(s, Welford(s).mean + K_SIGMA * sigma), |s| as real, sigma, Welford(s).m2);
  }

  /** The standard deviation vanishes only for samples that are all equal. */
  lemma StdDevPositive(s: seq<u32>, sigma: real)
    requires s != [] && IsStdDev(Welford(s), sigma) && Welford(s).max != Welford(s).min
    ensures sigma > 0.0
  {
    SpreadIsZeroIffConstant(s);
    WelfordCounts(s);
    Quotient(Welford(s).m2, |s| as real);
    Square(sigma);
  }

  datatype CancelReason = ConstantValue | InsufficientSamples
  datatype Outcome = Calibrated(threshold: int) | Cancelled(reason: CancelReason)

  function Clamp(x: int, lo: int, hi: int): int {
    if x < lo then lo else if x > hi then hi else x
  }

  function ThresholdPolicy(w: Stats, sigma: real): Outcome {
    if w.count < MIN_SAMPLES then Cancelled(InsufficientSamples)
    else if w.max == w.min then Cancelled(ConstantValue)
    else Calibrated(Clamp(RoundI32(Limit(w, sigma)), MEM_THRESHOLD_MIN, MEM_THRESHOLD_MAX))
  }

  /** The unrounded threshold. */
  function Limit(w: Stats, sigma: real): real { w.mean + K_SIGMA * sigma }

  lemma ClampedRounding(x: real)
    requires x >= 0.0
    ensures var t := Clamp(RoundI32(x), MEM_THRESHOLD_MIN, MEM_THRESHOLD_MAX);
            && 50 <= t <= 95
            && (50.0 <= x <= 95.0 ==> x - 0.5 <= t as real <= x + 0.5)
            && (x < 50.0 ==> t == 50) && (x > 95.0 ==> t == 95)
            && (x < 95.5 ==> t as real >= x - 0.5)
  {}

  /** A threshold results exactly from 60 or more samples of which two differ. */
  lemma CalibratesExactlyWhen(s: seq<u32>, sigma: real)
    ensures ThresholdPolicy(Welford(s), sigma).Calibrated? <==>
              |s| >= 60 && exists i, j :: 0 <= i < |s| && 0 <= j < |s| && s[i] != s[j]
    ensures ThresholdPolicy(Welford(s), sigma) == Cancelled(InsufficientSamples) <==> |s| < 60
  {
    WelfordCounts(s);
    if s != [] {
      SpreadIsZeroIffConstant(s);
    }
  }

  /** The threshold is mean + 3 sigma to the nearest integer where that lies in [50, 95], and the
      nearer end of that range elsewhere; and unless it was cut down to 95 at most one sample in
      nine of the window exceeds it. */
  lemma ThresholdGuarantee(s: seq<u32>, sigma: real)
    requires IsStdDev(Welford(s), sigma) && ThresholdPolicy(Welford(s), sigma).Calibrated?
    ensures var t, raw := ThresholdPolicy(Welford(s), sigma).threshold, Welford(s).mean + 3.0 * sigma;
            && (50.0 <= raw <= 95.0 ==> raw - 0.5 <= t as real <= raw + 0.5)
            && (raw < 50.0 ==> t == 50) && (raw > 95.0 ==> t == 95)
            && (raw < 95.5 ==> 9 * CountAbove(s, t as real) <= |s|)
  {
    WelfordCounts(s);
    StdDevPositive(s, sigma);
    FewSamplesAbove(s, sigma);
    MeanNonNegative(s);
    var t, raw := ThresholdPolicy(Welford(s), sigma).threshold, Limit(Welford(s), sigma);
    ClampedRounding(raw);
    if raw < 95.5 {
      FewerAbove(s, t, raw);
    }
  }

  lemma RatioNonNegative(x: real, n: real)
    requires x >= 0.0 && n > 0.0
    ensures Ratio(x, n) >= 0.0
  {}

  lemma MeanNonNegative(s: seq<u32>)
    requires s != []
    ensures Welford(s).mean >= 0.0
  {
    WelfordIsBatch(s);
    SumNonNegative(s);
    RatioNonNegative(Sum(s), |s| as real);
  }

  lemma {:induction false} SumNonNegative(s: seq<u32>)
    ensures Sum(s) >= 0.0
  {
    if s != [] {
      SumNonNegative(s[..|s| - 1]);
    }
  }

  /** Samples are integers, so one above the rounded threshold is above the unrounded one. */
  lemma {:induction false} FewerAbove(s: seq<u32>, t: int, raw: real)
    requires t as real >= raw - 0.5
    ensures CountAbove(s, t as real) <= CountAbove(s, raw)
  {
    if s != [] {
      FewerAbove(s[..|s| - 1], t, raw);
      var x := s[|s| - 1];
      if x as real > t as real {
        assert x >= t + 1;
        assert x as real >= t as real + 1.0;
      }
    }
  }

  // ---------------------------------------------------------------- the object

  lemma WelfordSnoc(s: seq<u32>, value: u32)
    ensures Welford(s + [value]) == Observe(Welford(s), value)
  {
    assert (s + [value])[..|s|] == s;
  }

  lemma UpdateIsObserve(w: Stats, value: u32, delta: real, mean: real, delta2: real, m2: real)
    requires delta == value as real - w.mean && mean == w.mean + delta / (w.count + 1) as real
    requires delta2 == value as real - mean && m2 == w.m2 + delta * delta2
    ensures Observe(w, value) == Stats(w.count + 1, mean, m2, Min(w.min, value), Max(w.max, value))
  {}

  class BaselineCalibrator {
    var count: nat
    var mean: real
    var m2: real
    var min: u32
    var max: u32
    ghost var samples: seq<u32>

    function Current(): Stats
      reads this
    {
      Stats(count, mean, m2, min, max)
    }

    ghost predicate Valid()
      reads this
    {
      Current() == Welford(samples)
    }

    constructor ()
      ensures Valid() && samples == []
    {
      count, mean, m2, min, max := 0, 0.0, 0.0, U32_MAX, 0;
      samples := [];
    }

    method Observe(value: u32)
      requires Valid()
      modifies this
      ensures Valid() && samples == old(samples) + [value]
    {
      ghost var before := Current();
      count := count + 1;
      var x := value as real;
      var delta := x - mean;
      mean := mean + delta / count as real;
      var delta2 := x - mean;
      m2 := m2 + delta * delta2;
      if value < min { min := value; }
      if value > max { max := value; }
      UpdateIsObserve(before, value, delta, mean, delta2, m2);
      samples := samples + [value];
      WelfordSnoc(old(samples), value);
    }

    method Finalize(sigma: real) returns (outcome: Outcome)
      requires Valid() && IsStdDev(Current(), sigma)
      ensures outcome == ThresholdPolicy(Welford(samples), sigma)
      ensures outcome.Calibrated? <==>
                |samples| >= 60 && exists i, j :: 0 <= i < |samples| && 0 <= j < |samples| && samples[i] != samples[j]
      ensures outcome.Calibrated? ==>
                var t, raw := outcome.threshold, Welford(samples).mean + 3.0 * sigma;
                && (50.0 <= raw <= 95.0 ==> raw - 0.5 <= t as real <= raw + 0.5)
                && (raw < 50.0 ==> t == 50) && (raw > 95.0 ==> t == 95)
    {
      CalibratesExactlyWhen(samples, sigma);
      if ThresholdPolicy(Welford(samples), sigma).Calibrated? {
        ThresholdGuarantee(samples, sigma);
      }
      if count < MIN_SAMPLES {
        return Cancelled(InsufficientSamples);
      }
      if max == min {
        return Cancelled(ConstantValue);
      }
      var raw := mean + K_SIGMA * sigma;
      outcome := Calibrated(Clamp(RoundI32(raw), MEM_THRESHOLD_MIN, MEM_THRESHOLD_MAX));
    }
  }
}
