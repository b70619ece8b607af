/**
 Means, deviations and medians: the two-pass definitions, Welford's one-pass loops, and the median with its
 median absolute deviation. Floating-point numbers are modelled as reals; the square root is a parameter.
 */
module Statistics {
  import opened Sorting

  function Sum(xs: seq<real>): real {
    if xs == [] then 0.0 else Sum(xs[..|xs| - 1]) + xs[|xs| - 1]
  }

  function SquaredDeviations(xs: seq<real>, mu: real): real {
    if xs == [] then 0.0
    else SquaredDeviations(xs[..|xs| - 1], mu) + (xs[|xs| - 1] - mu) * (xs[|xs| - 1] - mu)
  }

  function MeanOf(xs: seq<real>): real {
    if xs == [] then 0.0 else Sum(xs) / |xs| as real
  }

  function DeviationOf(xs: seq<real>, mu: real, sqrt: real -> real): real {
    if |xs| < 2 then 0.0 else sqrt(SquaredDeviations(xs, mu) / (|xs| - 1) as real)
  }

  // Two passes

  method Mean(xs: seq<real>) returns (m: real)
    ensures m == MeanOf(xs)
  {
    if |xs| == 0 {
      return 0.0;
    }
    var s := 0.0;
    for i := 0 to |xs|
      invariant s == Sum(xs[..i])
    {
      assert xs[..i + 1][..i] == xs[..i];
      s := s + xs[i];
    }
    assert xs[..|xs|] == xs;
    m := s / |xs| as real;
  }

  method StdDev(xs: seq<real>, mu: real, sqrt: real -> real) returns (d: real)
    ensures d == DeviationOf(xs, mu, sqrt)
  {
    if |xs| < 2 {
      return 0.0;
    }
    var s := 0.0;
    for i := 0 to |xs|
      invariant s == SquaredDeviations(xs[..i], mu)
    {
      assert xs[..i + 1][..i] == xs[..i];
      var e := xs[i] - mu;
      s := s + e * e;
    }
    assert xs[..|xs|] == xs;
    d := sqrt(s / (|xs| - 1) as real);
  }

  // One pass

  function Square(x: real): real { x * x }

  ghost function SumOfSquares(xs: seq<real>): real {
    if xs == [] then 0.0 else SumOfSquares(xs[..|xs| - 1]) + Square(xs[|xs| - 1])
  }

  lemma {:induction false} ExpandStep(q: real, s: real, n: real, a: real, x: real)
    ensures (q + x * x) - 2.0 * a * (s + x) + (n + 1.0) * (a * a)
         == (q - 2.0 * a * s + n * (a * a)) + (x - a) * (x - a)
  {
  }

  lemma {:induction false} ExpandSquares(xs: seq<real>, a: real)
    ensures SquaredDeviations(xs, a) == SumOfSquares(xs) - 2.0 * a * Sum(xs) + |xs| as real * (a * a)
  {
    if xs != [] {
      var front, x := xs[..|xs| - 1], xs[|xs| - 1];
      ExpandSquares(front, a);
      ExpandStep(SumOfSquares(front), Sum(front), |front| as real, a, x);
    }
  }

  lemma {:induction false} MeanTimesCount(xs: seq<real>)
    ensures MeanOf(xs) * |xs| as real == Sum(xs)
  {
    if xs != [] {
      QuotientTimes(Sum(xs), |xs| as real);
    }
  }

  lemma {:induction false} QuotientTimes(x: real, c: real)
    requires c != 0.0
    ensures x / c * c == x
  {
  }

  lemma {:induction false} ShiftIdentity(q: real, n: real, m: real, d: real)
    ensures q - 2.0 * (m + d) * (n * m) + n * ((m + d) * (m + d))
         == (q - 2.0 * m * (n * m) + n * (m * m)) + n * (d * d)
  {
  }

  lemma {:induction false} ProductIdentity(n: real, d: real)
    ensures n * (d * d) + (n * d) * (n * d) == ((n + 1.0) * d) * (n * d)
    ensures (n + 1.0) * d == n * d + d
  {
  }

  lemma {:induction false} AppendedSums(xs: seq<real>, x: real, a: real)
    ensures Sum(xs + [x]) == Sum(xs) + x
    ensures SquaredDeviations(xs + [x], a) == SquaredDeviations(xs, a) + (x - a) * (x - a)
  {
    assert (xs + [x])[..|xs|] == xs;
  }

  /** Moving the reference point away from the mean. */
  lemma {:induction false} ShiftedDeviations(xs: seq<real>, d: real)
    ensures SquaredDeviations(xs, MeanOf(xs) + d) == SquaredDeviations(xs, MeanOf(xs)) + |xs| as real * (d * d)
  {
    hide Sum, SumOfSquares, SquaredDeviations, MeanOf;
    var n, m := |xs| as real, MeanOf(xs);
    MeanTimesCount(xs);
    ExpandSquares(xs, m + d);
    ExpandSquares(xs, m);
    ShiftIdentity(SumOfSquares(xs), n, m, d);
    assert Sum(xs) == n * m;
  }

  /** One turn of Welford's loop keeps the running mean and the running sum of squared deviations exact. */
  lemma {:induction false} WelfordStep(xs: seq<real>, x: real, d: real)
    requires d == (x - MeanOf(xs)) / (|xs| + 1) as real
    ensures MeanOf(xs + [x]) == MeanOf(xs) + d
    ensures SquaredDeviations(xs + [x], MeanOf(xs) + d)
         == SquaredDeviations(xs, MeanOf(xs)) + (x - MeanOf(xs)) * (x - (MeanOf(xs) + d))
  {
    hide Sum, SquaredDeviations;
    var n, m := |xs| as real, MeanOf(xs);
    AppendedSums(xs, x, m + d);
    MeanTimesCount(xs);
    QuotientTimes(x - m, n + 1.0);
    MeanStep(Sum(xs), n, m, x, d);
    SameQuotient(Sum(xs + [x]), n + 1.0, m + d);
    hide MeanOf;
    ShiftedDeviations(xs, d);
    DeviationStep(n, m, d, x);
  }

  lemma {:induction false} MeanStep(s: real, n: real, m: real, x: real, d: real)
    requires m * n == s && d * (n + 1.0) == x - m
    ensures s + x == (m + d) * (n + 1.0)
  {
  }

  lemma {:induction false} SameQuotient(s: real, n: real, m: real)
    requires n > 0.0 && s == m * n
    ensures s / n == m
  {
  }

  lemma {:induction false} DeviationStep(n: real, m: real, d: real, x: real)
    requires d * (n + 1.0) == x - m
    ensures n * (d * d) + (x - (m + d)) * (x - (m + d)) == (x - m) * (x - (m + d))
  {
    ProductIdentity(n, d);
    assert x - (m + d) == n * d;
  }

  /** The common body of the two loops: take in sample x as the n-th. */
  method Accumulate(ghost xs: seq<real>, n: nat, mean: real, m2: real, x: real) returns (newMean: real, newM2: real)
    requires n == |xs| + 1 && mean == MeanOf(xs) && m2 == SquaredDeviations(xs, mean)
    ensures newMean == MeanOf(xs + [x]) && newM2 == SquaredDeviations(xs + [x], newMean)
  {
    hide MeanOf, SquaredDeviations;
    var delta := x - mean;
    var step := delta / n as real;
    WelfordStep(xs, x, step);
    newMean := mean + step;
    var delta2 := x - newMean;
    newM2 := m2 + delta * delta2;
  }

  /** The coefficient of variation, by Welford's loop, is the two-pass deviation over the mean. */
  method CvOf(xs: seq<real>, sqrt: real -> real) returns (cv: real)
    ensures cv == if |xs| < 2 || MeanOf(xs) == 0.0 then 0.0 else DeviationOf(xs, MeanOf(xs), sqrt) / MeanOf(xs)
  {
    var n := |xs|;
    if n < 2 {
      return 0.0;
    }
    hide MeanOf, SquaredDeviations;
    var mean, m2 := 0.0, 0.0;
    EmptySums();
    for i := 0 to n
      invariant mean == MeanOf(xs[..i]) && m2 == SquaredDeviations(xs[..i], mean)
    {
      assert xs[..i + 1] == xs[..i] + [xs[i]];
      mean, m2 := Accumulate(xs[..i], i + 1, mean, m2, xs[i]);
    }
    assert xs[..n] == xs;
    if mean == 0.0 {
      return 0.0;
    }
    var variance := m2 / (n - 1) as real;
    NonNegativeDeviations(xs, mean);
    NonNegativeQuotient(m2, (n - 1) as real);
    if variance < 0.0 {
      variance := 0.0;
    }
    cv := sqrt(variance) / mean;
  }

  lemma {:induction false} EmptySums()
    ensures MeanOf([]) == 0.0 && SquaredDeviations([], 0.0) == 0.0
  {
  }

  lemma {:induction false} NonNegativeDeviations(xs: seq<real>, mu: real)
    ensures SquaredDeviations(xs, mu) >= 0.0
  {
    if xs != [] {
      NonNegativeDeviations(xs[..|xs| - 1], mu);
      NonNegativeSquare(xs[|xs| - 1] - mu);
    }
  }

  lemma {:induction false} NonNegativeSquare(x: real)
    ensures x * x >= 0.0
  {
  }

  lemma {:induction false} NonNegativeQuotient(x: real, c: real)
    requires x >= 0.0 && c > 0.0
    ensures x / c >= 0.0
  {
  }

  /** The ratios a[i] / b[i] that are not skipped. */
  function Ratios(a: seq<real>, b: seq<real>, n: nat): seq<real>
    requires n <= |a| && n <= |b|
  {
    if n == 0 then [] else Ratios(a, b, n - 1) + (if b[n - 1] <= 0.0 then [] else [a[n - 1] / b[n - 1]])
  }

  datatype RatioStats = RatioStats(mean: real, stddev: real, n: nat)

  /** Over the reals no quotient by a positive number is infinite or undefined, so only b[i] <= 0 is skipped. */
  method WelfordRatio(a: seq<real>, b: seq<real>, sqrt: real -> real) returns (out: RatioStats)
    ensures var kept := Ratios(a, b, if |a| < |b| then |a| else |b|);
            out == RatioStats(MeanOf(kept), DeviationOf(kept, MeanOf(kept), sqrt), |kept|)
  {
    hide MeanOf, SquaredDeviations, Sum;
    var n := 0;
    var mean, m2 := 0.0, 0.0;
    ghost var kept: seq<real> := [];
    EmptySums();
    var i := 0;
    while i < |a| && i < |b|
      invariant i <= |a| && i <= |b|
      invariant kept == Ratios(a, b, i) && n == |kept|
      invariant mean == MeanOf(kept) && m2 == SquaredDeviations(kept, mean)
    {
      if b[i] <= 0.0 {
        i := i + 1;
        continue;
      }
      var r := a[i] / b[i];
      n := n + 1;
      mean, m2 := Accumulate(kept, n, mean, m2, r);
      kept := kept + [r];
      i := i + 1;
    }
    var stddev := 0.0;
    if n > 1 {
      stddev := sqrt(m2 / (n - 1) as real);
    }
    out := RatioStats(mean, stddev, n);
  }

  // Median and median absolute deviation

  function SortReals(xs: seq<real>): (r: seq<real>)
    ensures |r| == |xs|
  {
    Sort(xs, x => x)
  }

  function MedianOf(xs: seq<real>): real {
    if xs == [] then 0.0 else SortReals(xs)[|xs| / 2]
  }

  function Abs(x: real): real { if x < 0.0 then -x else x }

  function AbsoluteDeviations(xs: seq<real>, m: real): (r: seq<real>)
    ensures |r| == |xs|
  {
    seq(|xs|, i requires 0 <= i < |xs| => Abs(xs[i] - m))
  }

  function MadOf(xs: seq<real>): real {
    MedianOf(AbsoluteDeviations(SortReals(xs), MedianOf(xs)))
  }

  method MedianMAD(xs: seq<real>) returns (median: real, mad: real)
    ensures median == MedianOf(xs) && mad == MadOf(xs)
  {
    hide Sort;
    if |xs| == 0 {
      assert AbsoluteDeviations(SortReals(xs), 0.0) == [];
      return 0.0, 0.0;
    }
    var cp := SortReals(xs);
    median := cp[|cp| / 2];
    var dev: seq<real> := [];
    for i := 0 to |cp|
      invariant dev == AbsoluteDeviations(cp, median)[..i]
    {
      var d := cp[i] - median;
      if d < 0.0 {
        d := -d;
      }
      dev := dev + [d];
    }
    assert dev == AbsoluteDeviations(cp, median);
    dev := SortReals(dev);
    mad := dev[|dev| / 2];
  }

  /** Neither output depends on the order of the samples. */
  lemma {:induction false} OrderIrrelevant(xs: seq<real>, ys: seq<real>)
    requires multiset(xs) == multiset(ys)
    ensures MedianOf(xs) == MedianOf(ys) && MadOf(xs) == MadOf(ys)
  {
    hide Sort;
    assert |multiset(xs)| == |xs| && |multiset(ys)| == |ys|;
    SortContents(xs, x => x);
    SortContents(ys, x => x);
    SortUnique(SortReals(xs), SortReals(ys), x => x);
    assert SortReals(xs) == SortReals(ys);
  }

  /**
   Robustness: if the samples at more than half of the positions are untouched (fewer than half, rounded up,
   were replaced by anything), the median of the corrupted samples lies between two untouched ones.
   */
  lemma {:induction false} MedianRobust(xs: seq<real>, corrupted: seq<real>, untouched: set<int>) returns (low: int,
                                        high: int)
    requires |xs| == |corrupted| && |untouched| > |xs| / 2
    requires forall i :: i in untouched ==> 0 <= i < |xs| && corrupted[i] == xs[i]
    ensures low in untouched && high in untouched
    ensures xs[low] <= MedianOf(corrupted) <= xs[high]
  {
    hide Sort;
    var m := MedianOf(corrupted);
    var sorted := SortReals(corrupted);
    SortContents(corrupted, x => x);
    if forall i :: i in untouched ==> xs[i] > m {
      CountPositions(corrupted, x => x > m, untouched);
      CountSort(corrupted, x => x, x => x > m);
      CountTail(sorted, x => x > m, |sorted| / 2 + 1);
      assert false;
    }
    if forall i :: i in untouched ==> xs[i] < m {
      CountPositions(corrupted, x => x < m, untouched);
      CountSort(corrupted, x => x, x => x < m);
      CountHead(sorted, x => x < m, |sorted| / 2);
      assert false;
    }
    low :| low in untouched && xs[low] <= m;
    high :| high in untouched && xs[high] >= m;
  }

  lemma {:induction false} CountTail<T>(s: seq<T>, p: T -> bool, n: nat)
    requires n <= |s| && forall i :: 0 <= i < n ==> !p(s[i])
    ensures Count(s, p) <= |s| - n
  {
    assert s == s[..n] + s[n..];
    CountConcat(s[..n], s[n..], p);
    CountNone(s[..n], p);
  }

  lemma {:induction false} CountHead<T>(s: seq<T>, p: T -> bool, n: nat)
    requires n <= |s| && forall i :: n <= i < |s| ==> !p(s[i])
    ensures Count(s, p) <= n
  {
    assert s == s[..n] + s[n..];
    CountConcat(s[..n], s[n..], p);
    CountNone(s[n..], p);
  }

  // What the outputs are, in plain terms

  ghost predicate SquareRoot(sqrt: real -> real) {
    forall x :: x >= 0.0 ==> sqrt(x) >= 0.0 && sqrt(x) * sqrt(x) == x
  }

  /** With a square root: n - 1 times the squared deviation is the squared distances from mu, summed up. */
  lemma {:induction false} DeviationMeaning(xs: seq<real>, mu: real, sqrt: real -> real)
    requires SquareRoot(sqrt)
    ensures |xs| < 2 ==> DeviationOf(xs, mu, sqrt) == 0.0
    ensures |xs| >= 2 ==>
              var d := DeviationOf(xs, mu, sqrt);
              d >= 0.0 && d * d * (|xs| - 1) as real
                          == SumOfSquares(xs) - 2.0 * mu * Sum(xs) + |xs| as real * (mu * mu)
  {
    hide SumOfSquares, Sum;
    ExpandSquares(xs, mu);
    if |xs| >= 2 {
      var s, c := SquaredDeviations(xs, mu), (|xs| - 1) as real;
      NonNegativeDeviations(xs, mu);
      NonNegativeQuotient(s, c);
      QuotientTimes(s, c);
      assert DeviationOf(xs, mu, sqrt) * DeviationOf(xs, mu, sqrt) == s / c;
    }
  }

  /** kept lists, ascending, the positions below n with a positive divisor, and rs their quotients. */
  ghost predicate QuotientsAt(a: seq<real>, b: seq<real>, n: nat, rs: seq<real>, kept: seq<nat>)
    requires n <= |a| && n <= |b|
  {
    && |kept| == |rs| && (forall i :: i in kept <==> 0 <= i < n && b[i] > 0.0)
    && (forall i, j :: 0 <= i < j < |kept| ==> kept[i] < kept[j])
    && forall j :: 0 <= j < |kept| ==> kept[j] < n && rs[j] * b[kept[j]] == a[kept[j]]
  }

  lemma {:induction false} NoQuotient(a: seq<real>, b: seq<real>)
    ensures QuotientsAt(a, b, 0, [], [])
  {
  }

  lemma {:induction false} OneMoreQuotient(a: seq<real>, b: seq<real>, n: nat, rs: seq<real>, kept: seq<nat>, r: real)
    requires n < |a| && n < |b| && QuotientsAt(a, b, n, rs, kept)
    ensures b[n] <= 0.0 ==> QuotientsAt(a, b, n + 1, rs, kept)
    ensures b[n] > 0.0 && r * b[n] == a[n] ==> QuotientsAt(a, b, n + 1, rs + [r], kept + [n])
  {
  }

  /** The ratios are those of the positions with a positive divisor, in order. */
  lemma {:induction false} RatiosMeaning(a: seq<real>, b: seq<real>, n: nat) returns (kept: seq<nat>)
    requires n <= |a| && n <= |b|
    ensures QuotientsAt(a, b, n, Ratios(a, b, n), kept)
  {
    hide QuotientsAt;
    if n == 0 {
      kept := [];
      NoQuotient(a, b);
    } else {
      kept := RatiosMeaning(a, b, n - 1);
      var r := if b[n - 1] > 0.0 then a[n - 1] / b[n - 1] else 0.0;
      OneMoreQuotient(a, b, n - 1, Ratios(a, b, n - 1), kept, r);
      if b[n - 1] > 0.0 {
        QuotientTimes(a[n - 1], b[n - 1]);
        kept := kept + [n - 1];
      } else {
        assert Ratios(a, b, n) == Ratios(a, b, n - 1);
      }
    }
  }

  /** The upper median: a sample with at most half of the samples below it and fewer than half above. */
  lemma {:induction false} MedianCounts(xs: seq<real>)
    requires xs != []
    ensures MedianOf(xs) in xs
    ensures Count(xs, x => x < MedianOf(xs)) <= |xs| / 2
    ensures Count(xs, x => x > MedianOf(xs)) <= (|xs| - 1) / 2
  {
    hide Sort;
    var m := MedianOf(xs);
    var sorted := SortReals(xs);
    SortContents(xs, x => x);
    assert m in multiset(sorted);
    CountSort(xs, x => x, x => x > m);
    CountTail(sorted, x => x > m, |sorted| / 2 + 1);
    CountSort(xs, x => x, x => x < m);
    CountHead(sorted, x => x < m, |sorted| / 2);
  }

  lemma {:induction false} MedianMeaning(xs: seq<real>)
    ensures xs == [] ==> MedianOf(xs) == 0.0 && MadOf(xs) == 0.0
    ensures xs != [] ==>
              var m := MedianOf(xs);
              && m in xs
              && |set i | 0 <= i < |xs| && xs[i] < m| <= |xs| / 2
              && |set i | 0 <= i < |xs| && xs[i] > m| <= (|xs| - 1) / 2
  {
    if xs != [] {
      hide MedianOf;
      var m := MedianOf(xs);
      MedianCounts(xs);
      CountPositions(xs, x => x < m, set i | 0 <= i < |xs| && xs[i] < m);
      CountPositions(xs, x => x > m, set i | 0 <= i < |xs| && xs[i] > m);
    } else {
      assert AbsoluteDeviations(SortReals(xs), 0.0) == [];
    }
  }

  lemma {:induction false} CountDeviations(xs: seq<real>, m: real, p: real -> bool, q: real -> bool)
    requires forall x :: q(x) == p(Abs(x - m))
    ensures Count(AbsoluteDeviations(xs, m), p) == Count(xs, q)
  {
    if xs != [] {
      CountDeviations(xs[1..], m, p, q);
      assert AbsoluteDeviations(xs, m)[1..] == AbsoluteDeviations(xs[1..], m);
    }
  }

  /**
   The median absolute deviation: the distance d of some sample from the median m, with at most half of the samples
   nearer to m than d and fewer than half farther away.
   */
  lemma {:induction false} MadMeaning(xs: seq<real>)
    requires xs != []
    ensures var m, d := MedianOf(xs), MadOf(xs);
            && d >= 0.0 && (m - d in xs || m + d in xs)
            && |set i | 0 <= i < |xs| && m - d < xs[i] < m + d| <= |xs| / 2
            && |set i | 0 <= i < |xs| && (xs[i] < m - d || xs[i] > m + d)| <= (|xs| - 1) / 2
  {
    hide MedianOf, Sort, Count;
    var m, d := MedianOf(xs), MadOf(xs);
    var sorted := SortReals(xs);
    var dev := AbsoluteDeviations(sorted, m);
    MedianCounts(dev);
    var k :| 0 <= k < |dev| && dev[k] == d;
    SortContents(xs, x => x);
    assert sorted[k] in multiset(xs);
    assert dev[k] == Abs(sorted[k] - m);
    CountAround(xs, m, x => x < d, x => m - d < x < m + d);
    CountAround(xs, m, x => x > d, x => x < m - d || x > m + d);
    CountPositions(xs, x => m - d < x < m + d, set i | 0 <= i < |xs| && m - d < xs[i] < m + d);
    CountPositions(xs, x => x < m - d || x > m + d, set i | 0 <= i < |xs| && (xs[i] < m - d || xs[i] > m + d));
  }

  lemma {:induction false} CountAround(xs: seq<real>, m: real, p: real -> bool, q: real -> bool)
    requires forall x :: q(x) == p(Abs(x - m))
    ensures Count(AbsoluteDeviations(SortReals(xs), m), p) == Count(xs, q)
  {
    hide Sort, Count;
    CountDeviations(SortReals(xs), m, p, q);
    CountSort(xs, x => x, q);
  }
}
