/** Latency statistics of the stress tester. Durations are `int64` nanoseconds; `float64` values are idealised
    as reals. */
module Metrics {
  import opened Wire

  datatype Sample = Sample(duration: int, success: bool)

  /** Durations are non-negative `int64` values. */
  predicate Timed(samples: seq<Sample>) {
    forall s :: s in samples ==> 0 <= s.duration < TWO63
  }

  /** The durations of the successful samples, in order. */
  function Latencies(samples: seq<Sample>): seq<int>
  {
    if samples == [] then []
    else
      var n := |samples| - 1;
      Latencies(samples[..n]) + (if samples[n].success then [samples[n].duration] else [])
  }

  function Sum(xs: seq<int>): int
  {
    if xs == [] then 0 else Sum(xs[..|xs| - 1]) + xs[|xs| - 1]
  }

  predicate Extremes(xs: seq<int>, min: int, max: int) {
    && (forall x :: x in xs ==> min <= x <= max)
    && (xs != [] ==> min in xs && max in xs)
  }

  // ---- Aggregation ---------------------------------------------------------------------------

  lemma Int64Add(x: int, y: int)
    ensures Int64(Int64(x) + y) == Int64(x + y)
  {
    assert x == TWO64 * (x / TWO64) + x % TWO64;
    assert Int64(x) + y == x + y + (if x % TWO64 < TWO63 then -(x / TWO64) else -(x / TWO64) - 1) * TWO64;
    ModAddMultiple(x + y, if x % TWO64 < TWO63 then -(x / TWO64) else -(x / TWO64) - 1, TWO64);
  }

  lemma Int64Zero()
    ensures Int64(0) == 0
  {
  }

  /** Folding one more value into the running minimum and maximum. */
  lemma ExtremesGrow(xs: seq<int>, min: int, max: int, x: int)
    requires 0 <= x < TWO63
    requires if xs == [] then min == TWO63 - 1 && max == 0 else Extremes(xs, min, max)
    ensures Extremes(xs + [x], if x < min then x else min, if x > max then x else max)
  {
    var ys := xs + [x];
    assert x in ys && forall y :: y in ys <==> y in xs || y == x;
  }

  datatype Totals = Totals(successes: nat, errors: nat, total: int, min: int, max: int, latencies: seq<int>)

  /** The loop of `Report` over the samples; the total is a 64-bit sum and wraps. */
  method Aggregate(samples: seq<Sample>) returns (t: Totals)
    requires Timed(samples)
    ensures t.latencies == Latencies(samples)
    ensures t.successes == |t.latencies| && t.successes + t.errors == |samples|
    ensures t.total == Int64(Sum(t.latencies))
    ensures t.latencies != [] ==> Extremes(t.latencies, t.min, t.max)
  {
    hide Int64, Extremes;
    assert Int64(0) == 0 by { Int64Zero(); }
    var successes, errors, total, min, max := 0, 0, 0, TWO63 - 1, 0;
    var latencies: seq<int> := [];
    for i := 0 to |samples|
      invariant latencies == Latencies(samples[..i])
      invariant successes == |latencies| && successes + errors == i
      invariant total == Int64(Sum(latencies))
      invariant latencies == [] ==> min == TWO63 - 1 && max == 0
      invariant latencies != [] ==> Extremes(latencies, min, max)
    {
      var s := samples[i];
      assert s in samples;
      assert samples[..i + 1][..i] == samples[..i];
      if s.success {
        successes := successes + 1;
        Int64Add(Sum(latencies), s.duration);
        total := Int64(total + s.duration);
        ghost var min0, max0 := min, max;
        if s.duration < min { min := s.duration; }
        if s.duration > max { max := s.duration; }
        ExtremesGrow(latencies, min0, max0, s.duration);
        assert (latencies + [s.duration])[..|latencies|] == latencies;
        latencies := latencies + [s.duration];
      } else {
        errors := errors + 1;
      }
    }
    assert samples[..|samples|] == samples;
    t := Totals(successes, errors, total, min, max, latencies);
  }

  /** Integer division that truncates toward zero. */
  function Truncated(a: int, b: int): int
    requires b > 0
  {
    if a >= 0 then a / b else -((-a) / b)
  }

  function Average(xs: seq<int>): int
    requires xs != []
  {
    Truncated(Int64(Sum(xs)), |xs|)
  }

  lemma DivAtLeast(a: int, k: int, q: int)
    requires k > 0 && q * k <= a
    ensures q <= a / k
  {
    var d := a / k;
    Distribute(d, 1, k);
    assert a < (d + 1) * k;
    if d < q {
      MulStrictInt(d + 1, q, k);
    }
  }

  lemma DivAtMost(a: int, k: int, q: int)
    requires k > 0 && a <= q * k
    ensures a / k <= q
  {
    var d := a / k;
    Distribute(q, 1, k);
    assert d * k <= a < (q + 1) * k;
    if q < d {
      MulStrictInt(q + 1, d, k);
    }
  }

  lemma MulStrictInt(a: int, b: int, c: int)
    requires a <= b && c > 0
    ensures a * c <= b * c
  {
    assert (b - a) * c >= 0;
    Distribute(a, b - a, c);
  }

  lemma {:induction false} SumBounds(xs: seq<int>, min: int, max: int)
    requires forall x :: x in xs ==> min <= x <= max
    ensures |xs| * min <= Sum(xs) <= |xs| * max
  {
    if xs != [] {
      var n := |xs| - 1;
      assert xs[n] in xs && forall x :: x in xs[..n] ==> x in xs;
      SumBounds(xs[..n], min, max);
      Distribute(n, 1, min);
      Distribute(n, 1, max);
    }
  }

  /** An overflowed total is smaller than the true one by at least 2^64. */
  lemma OverflowGap(s: int)
    requires s >= TWO63
    ensures Int64(s) + TWO64 <= s
  {
    assert s == TWO64 * (s / TWO64) + s % TWO64;
    assert s / TWO64 >= 0;
  }

  /** Values two divisors apart have different quotients, also across zero. */
  lemma QuotientsDiffer(a: int, b: int, k: int)
    requires k > 0 && b >= 0 && a + 2 * k <= b
    ensures Truncated(a, k) < b / k
  {
    if a >= 0 {
      var d := a / k;
      assert a == d * k + a % k;
      Distribute(d, 1, k);
      DivAtLeast(b, k, d + 1);
    } else if a > -k {
      ModUnique(-a, k, 0, -a);
      DivAtLeast(b, k, 1);
    } else {
      DivAtLeast(-a, k, 1);
      DivAtLeast(b, k, 0);
    }
  }

  /** The average reported is the truncated mean exactly when the 64-bit total does not overflow. */
  lemma AverageExact(xs: seq<int>)
    requires 0 < |xs| < TWO63 && forall x :: x in xs ==> 0 <= x < TWO63
    ensures Average(xs) == Sum(xs) / |xs| <==> Sum(xs) < TWO63
  {
    var s, k := Sum(xs), |xs|;
    SumBounds(xs, 0, TWO63 - 1);
    if s < TWO63 {
      assert Int64(s) == s;
    } else {
      OverflowGap(s);
      hide Int64, Truncated, Sum;
      QuotientsDiffer(Int64(s), s, k);
    }
  }

  lemma QuotientAtLeast(a: int, k: int, q: int)
    requires k > 0 && a >= 0
    ensures q <= a / k <==> q * k <= a
  {
    if q * k <= a {
      DivAtLeast(a, k, q);
    }
    if q <= a / k {
      MulStrictInt(q, a / k, k);
    }
  }

  lemma NegativeQuotient(a: int, k: int)
    requires k > 0 && a < 0
    ensures Truncated(a, k) <= 0 && (Truncated(a, k) == 0 <==> a > -k)
  {
    DivAtLeast(-a, k, 0);
    if -a >= k {
      DivAtLeast(-a, k, 1);
    } else {
      ModUnique(-a, k, 0, -a);
    }
  }

  lemma TruncatedAtLeast(a: int, k: int, q: int)
    requires k > 0 && q >= 0
    ensures q <= Truncated(a, k) <==> TotalSuffices(a, k, q)
  {
    if a >= 0 {
      QuotientAtLeast(a, k, q);
    } else {
      NegativeQuotient(a, k);
      if q > 0 {
        MulStrictInt(1, q, k);
      }
      hide Truncated;
    }
  }

  lemma Int64AtMost(x: int)
    requires x >= 0
    ensures Int64(x) <= x
  {
    assert x == TWO64 * (x / TWO64) + x % TWO64;
    assert x / TWO64 >= 0;
  }

  /** The 64-bit total still carries an average of at least `min`. */
  predicate TotalSuffices(total: int, k: int, min: int) {
    if min == 0 then total > -k else total >= min * k
  }

  /** The average lies between the smallest and the largest latency exactly when the 64-bit total, overflowed
      or not, is large enough for the smallest; it never exceeds the largest. */
  lemma AverageBetween(xs: seq<int>, min: int, max: int)
    requires 0 < |xs| && (forall x :: x in xs ==> 0 <= x < TWO63) && Extremes(xs, min, max)
    ensures Average(xs) <= max
    ensures min <= Average(xs) <= max <==> TotalSuffices(Int64(Sum(xs)), |xs|, min)
  {
    var k, total := |xs|, Int64(Sum(xs));
    SumBounds(xs, min, max);
    assert min in xs && max in xs;
    assert Sum(xs) >= 0 by { SumBounds(xs, 0, TWO63 - 1); }
    Int64AtMost(Sum(xs));
    hide Int64, Sum, Extremes;
    TruncatedAtLeast(total, k, min);
    if total >= 0 {
      DivAtMost(total, k, max);
    } else {
      DivAtLeast(-total, k, 0);
    }
  }

  /** Without overflow the total always suffices. */
  lemma SmallTotalSuffices(xs: seq<int>, min: int, max: int)
    requires 0 < |xs| && (forall x :: x in xs ==> 0 <= x < TWO63) && Extremes(xs, min, max) && Sum(xs) < TWO63
    ensures TotalSuffices(Int64(Sum(xs)), |xs|, min)
  {
    SumBounds(xs, min, max);
    SumBounds(xs, 0, TWO63 - 1);
    assert Int64(Sum(xs)) == Sum(xs);
  }

  /** With overflow it need not: two samples of the longest duration average to less than either. */
  lemma OverflowedAverage()
    ensures Average([TWO63 - 1, TWO63 - 1]) < TWO63 - 1
  {
    var xs := [TWO63 - 1, TWO63 - 1];
    assert xs[..1] == [TWO63 - 1] && [TWO63 - 1][..0] == [];
    assert Sum([TWO63 - 1]) == TWO63 - 1;
    assert Sum(xs) == TWO64 - 2;
    assert Int64(TWO64 - 2) == -2;
  }

  // ---- Percentiles ---------------------------------------------------------------------------

  predicate Ascending(xs: seq<real>) {
    forall i, j :: 0 <= i <= j < |xs| ==> xs[i] <= xs[j]
  }

  /** Linear interpolation between neighbours. */
  function At(xs: seq<real>, x: real): real
    requires 0.0 <= x && x.Floor < |xs|
  {
    var i := x.Floor;
    var frac := x - i as real;
    if i + 1 < |xs| then xs[i] + frac * (xs[i + 1] - xs[i]) else xs[i]
  }

  lemma MulNonNegative(a: real, b: real)
    requires a >= 0.0 && b >= 0.0
    ensures a * b >= 0.0
  {
  }

  lemma DistributeReal(a: real, b: real, c: real)
    ensures (a + b) * c == a * c + b * c
  {
  }

  lemma Scaled(q: real, n: nat)
    requires 0.0 < q < 1.0
    ensures 0.0 <= q * (n as real) <= n as real && (q * (n as real)).Floor <= n
  {
    MulNonNegative(q, n as real);
    MulNonNegative(1.0 - q, n as real);
    DistributeReal(q, 1.0 - q, n as real);
  }

  /** Where the `p`-th percentile of `n + 1` values lies among the indices `0..n`. */
  function Position(p: real, n: nat): (x: real)
    requires 0.0 < p < 100.0
    ensures 0.0 <= x <= n as real && x.Floor <= n
  {
    var q := p / 100.0;
    Scaled(q, n);
    q * (n as real)
  }

  function Percentile(xs: seq<real>, p: real): real
  {
    if |xs| == 0 then 0.0
    else if p <= 0.0 then xs[0]
    else if p >= 100.0 then xs[|xs| - 1]
    else At(xs, Position(p, |xs| - 1))
  }

  lemma AtBetween(xs: seq<real>, x: real)
    requires Ascending(xs) && 0.0 <= x && x.Floor < |xs|
    ensures xs[x.Floor] <= At(xs, x)
    ensures x.Floor + 1 < |xs| ==> At(xs, x) <= xs[x.Floor + 1]
    ensures At(xs, x) <= xs[|xs| - 1]
  {
    var i := x.Floor;
    if i + 1 < |xs| {
      var f, d := x - i as real, xs[i + 1] - xs[i];
      MulNonNegative(f, d);
      MulNonNegative(1.0 - f, d);
      DistributeReal(f, 1.0 - f, d);
    }
  }

  lemma AtMonotone(xs: seq<real>, x: real, y: real)
    requires Ascending(xs) && 0.0 <= x <= y && y.Floor < |xs|
    ensures At(xs, x) <= At(xs, y)
  {
    if x.Floor == y.Floor {
      var i := x.Floor;
      if i + 1 < |xs| {
        var d := xs[i + 1] - xs[i];
        MulNonNegative(y - x, d);
        DistributeReal(x - i as real, y - x, d);
      }
    } else {
      assert x.Floor < y.Floor;
      AtBetween(xs, x);
      AtBetween(xs, y);
    }
  }

  lemma PercentileWithin(xs: seq<real>, p: real)
    requires Ascending(xs) && xs != []
    ensures xs[0] <= Percentile(xs, p) <= xs[|xs| - 1]
  {
    if 0.0 < p < 100.0 {
      hide Position;
      AtBetween(xs, Position(p, |xs| - 1));
    }
  }

  lemma PositionMonotone(p: real, q: real, n: nat)
    requires 0.0 < p <= q < 100.0
    ensures Position(p, n) <= Position(q, n)
  {
    var a, b := p / 100.0, q / 100.0;
    MulNonNegative(b - a, n as real);
    DistributeReal(a, b - a, n as real);
  }

  lemma PercentileInside(xs: seq<real>, p: real, q: real)
    requires Ascending(xs) && xs != [] && 0.0 < p <= q < 100.0
    ensures Percentile(xs, p) <= Percentile(xs, q)
  {
    hide At, Ascending, Position;
    PositionMonotone(p, q, |xs| - 1);
    AtMonotone(xs, Position(p, |xs| - 1), Position(q, |xs| - 1));
  }

  /** Percentiles grow with `p` and stay within the sample. */
  lemma PercentileMonotone(xs: seq<real>, p: real, q: real)
    requires Ascending(xs) && xs != [] && p <= q
    ensures xs[0] <= Percentile(xs, p) <= Percentile(xs, q) <= xs[|xs| - 1]
  {
    hide At, Ascending;
    PercentileWithin(xs, p);
    PercentileWithin(xs, q);
    if 0.0 < p && q < 100.0 {
      PercentileInside(xs, p, q);
    }
  }

  lemma MulCancelReal(a: real, b: real)
    ensures 100.0 * ((a / 100.0) * b) == a * b
  {
  }

  /** An index in whole hundredths: `p * n` is a hundred times the position. */
  lemma PositionIs(p: real, n: nat)
    requires 0.0 < p < 100.0
    ensures 100.0 * Position(p, n) == p * (n as real)
  {
    MulCancelReal(p, n as real);
  }

  /** Interpolation between neighbours `k` and `k + 1`, the ends included. */
  lemma AtIs(xs: seq<real>, x: real, k: nat)
    requires k + 1 < |xs| && k as real <= x <= (k + 1) as real
    ensures x.Floor < |xs| && At(xs, x) - xs[k] == (x - k as real) * (xs[k + 1] - xs[k])
  {
    if x == (k + 1) as real {
      assert x.Floor == k + 1;
    } else {
      assert x.Floor == k;
    }
  }

  lemma Hundredfold(a: real, b: real, c: real)
    requires a == b * c
    ensures 100.0 * a == (100.0 * b) * c
  {
  }

  /** What a percentile is: with the values spread evenly over 0 to 100, value `k` lies at `100 * k / (n - 1)`, and
      between neighbours the percentile is linear. */
  lemma PercentileIs(xs: seq<real>, p: real, k: nat)
    requires 0.0 <= p <= 100.0 && k + 1 < |xs|
    requires 100.0 * k as real <= p * (|xs| - 1) as real <= 100.0 * (k + 1) as real
    ensures 100.0 * (Percentile(xs, p) - xs[k]) == (p * (|xs| - 1) as real - 100.0 * k as real) * (xs[k + 1] - xs[k])
  {
    var n := |xs| - 1;
    if p == 0.0 {
      assert k == 0;
    } else if p == 100.0 {
      assert k + 1 == n;
    } else {
      PositionIs(p, n);
      hide Position;
      var x := Position(p, n);
      AtIs(xs, x, k);
      assert Percentile(xs, p) == At(xs, x);
      hide At, Percentile;
      Hundredfold(At(xs, x) - xs[k], x - k as real, xs[k + 1] - xs[k]);
    }
  }

  /** At the position of value `k` it is that value. */
  lemma PercentileAtValue(xs: seq<real>, p: real, k: nat)
    requires 0.0 <= p <= 100.0 && k < |xs| && p * (|xs| - 1) as real == 100.0 * k as real
    ensures Percentile(xs, p) == xs[k]
  {
    if |xs| == 1 {
      OnlyValue(xs, p);
    } else if k + 1 < |xs| {
      PercentileIs(xs, p, k);
    } else {
      PercentileIs(xs, p, k - 1);
    }
  }

  lemma OnlyValue(xs: seq<real>, p: real)
    requires |xs| == 1
    ensures Percentile(xs, p) == xs[0]
  {
    if 0.0 < p < 100.0 {
      assert Position(p, 0).Floor == 0;
    }
  }

  // ---- Sorting -------------------------------------------------------------------------------

  predicate SortedInts(xs: seq<int>) {
    forall i, j :: 0 <= i <= j < |xs| ==> xs[i] <= xs[j]
  }

  /** `sort.Float64s`, known by its result: the ascending arrangement of the same values. */
  function Sort(xs: seq<int>): (r: seq<int>)
    ensures SortedInts(r) && multiset(r) == multiset(xs) && |r| == |xs|
  {
    if xs == [] then []
    else
      var n := |xs| - 1;
      assert xs == xs[..n] + [xs[n]];
      InsertSorts(Sort(xs[..n]), xs[n]);
      Insert(Sort(xs[..n]), xs[n])
  }

  function Insert(xs: seq<int>, x: int): (r: seq<int>)
    ensures |r| == |xs| + 1
    ensures multiset(r) == multiset(xs) + multiset{x}
  {
    if xs == [] || xs[|xs| - 1] <= x then xs + [x]
    else
      assert xs == xs[..|xs| - 1] + [xs[|xs| - 1]];
      Insert(xs[..|xs| - 1], x) + [xs[|xs| - 1]]
  }

  lemma AppendSorts(xs: seq<int>, y: int)
    requires SortedInts(xs) && forall x :: x in xs ==> x <= y
    ensures SortedInts(xs + [y])
  {
    assert forall i :: 0 <= i < |xs| ==> xs[i] in xs;
  }

  lemma {:induction false} InsertSorts(xs: seq<int>, x: int)
    requires SortedInts(xs)
    ensures SortedInts(Insert(xs, x))
  {
    if xs == [] || xs[|xs| - 1] <= x {
      AppendSorts(xs, x);
    } else {
      var n := |xs| - 1;
      InsertSorts(xs[..n], x);
      var rest := Insert(xs[..n], x);
      assert Insert(xs, x) == rest + [xs[n]];
      assert forall y :: y in xs[..n] ==> y <= xs[n];
      hide Insert, SortedInts;
      forall y | y in rest
        ensures y <= xs[n]
      {
        InsertHolds(xs[..n], x, y);
      }
      AppendSorts(rest, xs[n]);
    }
  }

  lemma InsertHolds(xs: seq<int>, x: int, y: int)
    requires y in Insert(xs, x)
    ensures y in xs || y == x
  {
    hide Insert;
    assert y in multiset(Insert(xs, x));
  }

  lemma SortHolds(xs: seq<int>, y: int)
    ensures y in Sort(xs) <==> y in xs
  {
    hide Sort;
    assert y in multiset(Sort(xs)) <==> y in multiset(xs);
  }

  function Reals(xs: seq<int>): (r: seq<real>)
    ensures |r| == |xs| && forall i :: 0 <= i < |xs| ==> r[i] == xs[i] as real
  {
    seq(|xs|, i requires 0 <= i < |xs| => xs[i] as real)
  }

  /** The ends of the sorted list are the extremes the aggregation loop kept. */
  lemma SortedEnds(xs: seq<int>, min: int, max: int)
    requires xs != [] && Extremes(xs, min, max)
    ensures Sort(xs)[0] == min && Sort(xs)[|xs| - 1] == max
  {
    hide Sort;
    var s := Sort(xs);
    SortHolds(xs, min);
    SortHolds(xs, max);
    SortHolds(xs, s[0]);
    SortHolds(xs, s[|xs| - 1]);
  }

  /** The order of the reported figures: the smallest latency, then the percentiles, then the largest, each
      percentile truncated to whole nanoseconds. */
  lemma ReportOrdered(xs: seq<int>, min: int, max: int)
    requires xs != [] && Extremes(xs, min, max)
    ensures var s := Reals(Sort(xs));
            min <= Percentile(s, 50.0).Floor <= Percentile(s, 90.0).Floor
            <= Percentile(s, 95.0).Floor <= Percentile(s, 99.0).Floor
            <= Percentile(s, 99.9).Floor <= max
  {
    hide Percentile, Sort, Extremes;
    SortedEnds(xs, min, max);
    var s := Reals(Sort(xs));
    PercentileMonotone(s, 50.0, 90.0);
    PercentileMonotone(s, 90.0, 95.0);
    PercentileMonotone(s, 95.0, 99.0);
    PercentileMonotone(s, 99.0, 99.9);
  }

  // ---- Histogram -----------------------------------------------------------------------------

  const MILLISECOND: int := 1_000_000

  datatype Bucket = Bucket(name: string, limit: int)

  /** The limit of the last bucket is the largest finite `float64`. */
  function Buckets(): (r: seq<Bucket>)
    ensures |r| == 12
    ensures r[11].limit > TWO63
  {
    [
    Bucket("<1ms", MILLISECOND),
    Bucket("1-5ms", 5 * MILLISECOND),
    Bucket("5-10ms", 10 * MILLISECOND),
    Bucket("10-25ms", 25 * MILLISECOND),
    Bucket("25-50ms", 50 * MILLISECOND),
    Bucket("50-100ms", 100 * MILLISECOND),
    Bucket("100-250ms", 250 * MILLISECOND),
    Bucket("250-500ms", 500 * MILLISECOND),
    Bucket("500ms-1s", 1000 * MILLISECOND),
    Bucket("1-2s", 2000 * MILLISECOND),
    Bucket("2-5s", 5000 * MILLISECOND),
    Bucket(">5s", 179769313486231570814527423731704356798070567525844996598917476803157260780028538760589558632766878171540458953514382464234321326889464182768467546703537516986049910576551282076245490090389328944075868508455133942304583236903222948165808559332123348274797826204144723168738177180919299881250404026184124858368)]
  }

  /** The first bucket whose limit exceeds `l`. */
  function BucketOf(l: int, b: nat): (r: nat)
    requires b <= |Buckets()|
    ensures b <= r <= |Buckets()|
    ensures forall i :: b <= i < r ==> Buckets()[i].limit <= l
    ensures r < |Buckets()| ==> l < Buckets()[r].limit
    decreases |Buckets()| - b
  {
    if b == |Buckets()| || l < Buckets()[b].limit then b else BucketOf(l, b + 1)
  }

  /** The buckets in nanoseconds. */
  lemma BucketBounds(l: int)
    requires 0 <= l < TWO63
    ensures BucketOf(l, 0) < 12
    ensures Buckets()[BucketOf(l, 0)].name
         == if l < 1_000_000 then "<1ms"
            else if l < 5_000_000 then "1-5ms"
            else if l < 10_000_000 then "5-10ms"
            else if l < 25_000_000 then "10-25ms"
            else if l < 50_000_000 then "25-50ms"
            else if l < 100_000_000 then "50-100ms"
            else if l < 250_000_000 then "100-250ms"
            else if l < 500_000_000 then "250-500ms"
            else if l < 1_000_000_000 then "500ms-1s"
            else if l < 2_000_000_000 then "1-2s"
            else if l < 5_000_000_000 then "2-5s"
            else ">5s"
  {
    var b := BucketOf(l, 0);
    assert b > 0 ==> Buckets()[b - 1].limit <= l;
  }

  function CountIn(xs: seq<int>, b: nat): nat
  {
    if xs == [] then 0
    else CountIn(xs[..|xs| - 1], b) + (if BucketOf(xs[|xs| - 1], 0) == b then 1 else 0)
  }

  function CountOf(dist: map<string, nat>, name: string): nat {
    if name in dist then dist[name] else 0
  }

  /** The histogram holds, under each bucket's name, the number of latencies that fall in it. */
  ghost predicate Tallies(dist: map<string, nat>, xs: seq<int>) {
    && (forall b :: 0 <= b < |Buckets()| ==> CountOf(dist, Buckets()[b].name) == CountIn(xs, b))
    && (forall name :: name in dist ==> exists b :: 0 <= b < |Buckets()| && Buckets()[b].name == name)
  }

  lemma NamesDistinct(i: nat, j: nat)
    requires i < |Buckets()| && j < |Buckets()| && i != j
    ensures Buckets()[i].name != Buckets()[j].name
  {
  }

  lemma TallyOne(dist: map<string, nat>, xs: seq<int>, x: int, b: nat)
    requires Tallies(dist, xs) && b == BucketOf(x, 0) && b < |Buckets()|
    ensures var name := Buckets()[b].name; Tallies(dist[name := CountOf(dist, name) + 1], xs + [x])
  {
    hide Buckets, BucketOf;
    var after := dist[Buckets()[b].name := CountOf(dist, Buckets()[b].name) + 1];
    assert (xs + [x])[..|xs|] == xs;
    forall c | 0 <= c < |Buckets()|
      ensures CountOf(after, Buckets()[c].name) == CountIn(xs + [x], c)
    {
      if c != b {
        NamesDistinct(c, b);
      }
    }
  }

  lemma TallyNone(dist: map<string, nat>, xs: seq<int>, x: int)
    requires Tallies(dist, xs) && BucketOf(x, 0) == |Buckets()|
    ensures Tallies(dist, xs + [x])
  {
    hide Buckets, BucketOf;
    assert (xs + [x])[..|xs|] == xs;
  }

  /** `buildDistribution`: for each latency, the first bucket that takes it. */
  method BuildDistribution(latencies: seq<int>) returns (dist: map<string, nat>)
    ensures Tallies(dist, latencies)
  {
    hide Buckets, BucketOf;
    dist := map[];
    for k := 0 to |latencies|
      invariant Tallies(dist, latencies[..k])
    {
      hide Tallies;
      var l := latencies[k];
      assert latencies[..k + 1] == latencies[..k] + [l];
      var b := FindBucket(l);
      if b < |Buckets()| {
        TallyOne(dist, latencies[..k], l, b);
        dist := dist[Buckets()[b].name := CountOf(dist, Buckets()[b].name) + 1];
      } else {
        TallyNone(dist, latencies[..k], l);
      }
    }
    assert latencies[..|latencies|] == latencies;
  }

  method FindBucket(l: int) returns (b: nat)
    ensures b == BucketOf(l, 0)
  {
    hide Buckets;
    b := 0;
    while b < |Buckets()| && l >= Buckets()[b].limit
      invariant b <= |Buckets()| && BucketOf(l, 0) == BucketOf(l, b)
    {
      b := b + 1;
    }
  }

  /** The sum of the counts of the first `n` buckets. */
  function SumCounts(dist: map<string, nat>, n: nat): nat
    requires n <= |Buckets()|
  {
    if n == 0 then 0 else SumCounts(dist, n - 1) + CountOf(dist, Buckets()[n - 1].name)
  }

  function SumIn(xs: seq<int>, n: nat): nat
  {
    if n == 0 then 0 else SumIn(xs, n - 1) + CountIn(xs, n - 1)
  }

  lemma {:induction false} SumCountsIsSumIn(dist: map<string, nat>, xs: seq<int>, n: nat)
    requires n <= |Buckets()| && Tallies(dist, xs)
    ensures SumCounts(dist, n) == SumIn(xs, n)
  {
    hide Buckets, BucketOf;
    if n > 0 {
      SumCountsIsSumIn(dist, xs, n - 1);
    }
  }

  lemma {:induction false} SumInAppend(xs: seq<int>, x: int, n: nat)
    ensures SumIn(xs + [x], n) == SumIn(xs, n) + (if BucketOf(x, 0) < n then 1 else 0)
  {
    hide BucketOf, Buckets;
    if n > 0 {
      SumInAppend(xs, x, n - 1);
      assert (xs + [x])[..|xs|] == xs;
    }
  }

  lemma {:induction false} NoCounts(n: nat)
    ensures SumIn([], n) == 0
  {
    if n > 0 {
      NoCounts(n - 1);
    }
  }

  lemma {:induction false} SumInIsLength(xs: seq<int>)
    requires forall x :: x in xs ==> 0 <= x < TWO63
    ensures SumIn(xs, |Buckets()|) == |xs|
  {
    hide Buckets, BucketOf, CountIn, SumIn;
    if xs == [] {
      NoCounts(|Buckets()|);
    } else {
      var n := |xs| - 1;
      assert xs == xs[..n] + [xs[n]] && xs[n] in xs && forall x :: x in xs[..n] ==> x in xs;
      SumInIsLength(xs[..n]);
      SumInAppend(xs[..n], xs[n], |Buckets()|);
      assert BucketOf(xs[n], 0) <= 11;
    }
  }

  /** Every latency falls in exactly one bucket, so the counts add up to the number of latencies. */
  lemma CountsAddUp(dist: map<string, nat>, xs: seq<int>)
    requires Tallies(dist, xs) && forall x :: x in xs ==> 0 <= x < TWO63
    ensures SumCounts(dist, |Buckets()|) == |xs|
  {
    hide Buckets, BucketOf;
    SumCountsIsSumIn(dist, xs, |Buckets()|);
    SumInIsLength(xs);
  }

  // ---- The report ----------------------------------------------------------------------------

  datatype Figures = Figures(
    avg: int, min: int, max: int, p50: int, p90: int, p95: int, p99: int, p999: int)

  const NO_FIGURES := Figures(0, 0, 0, 0, 0, 0, 0, 0)

  datatype Report = Report(
    total: nat, successes: nat, errors: nat, figures: Figures, distribution: map<string, nat>)

  lemma LatenciesTimed(samples: seq<Sample>)
    requires Timed(samples)
    ensures |Latencies(samples)| <= |samples|
    ensures forall x :: x in Latencies(samples) ==> 0 <= x < TWO63
  {
    if samples != [] {
      var n := |samples| - 1;
      assert samples[n] in samples && forall s :: s in samples[..n] ==> s in samples;
      LatenciesTimed(samples[..n]);
    }
  }

  /** How many of the samples before `n` succeeded. */
  ghost function Successes(samples: seq<Sample>, n: nat): nat
    requires n <= |samples|
  {
    |set i | 0 <= i < n && samples[i].success|
  }

  lemma SuccessesStep(samples: seq<Sample>, n: nat)
    requires n < |samples|
    ensures Successes(samples, n + 1) == Successes(samples, n) + if samples[n].success then 1 else 0
  {
    var before := set i | 0 <= i < n && samples[i].success;
    var after := set i | 0 <= i < n + 1 && samples[i].success;
    assert after == before + if samples[n].success then {n} else {};
  }

  /** The latencies are the durations of the successful samples, in order. */
  lemma {:induction false} LatenciesAre(samples: seq<Sample>, n: nat)
    requires n <= |samples|
    ensures |Latencies(samples[..n])| == Successes(samples, n)
    ensures forall i :: 0 <= i < n && samples[i].success ==>
              && Successes(samples, i) < Successes(samples, n)
              && Latencies(samples[..n])[Successes(samples, i)] == samples[i].duration
  {
    hide Successes;
    if n == 0 {
      NoSuccesses(samples);
    } else {
      LatenciesAre(samples, n - 1);
      SuccessesStep(samples, n - 1);
      assert samples[..n][..n - 1] == samples[..n - 1];
    }
  }

  lemma NoSuccesses(samples: seq<Sample>)
    ensures Successes(samples, 0) == 0
  {
  }

  /** `Report`: what its figures promise. The average is between the extremes exactly when the 64-bit total
      suffices, as it does without overflow; everything else holds for any samples. */
  method MakeReport(samples: seq<Sample>) returns (r: Report)
    requires Timed(samples) && |samples| < TWO63
    ensures r.successes + r.errors == r.total == |samples| && r.successes == |Latencies(samples)|
    ensures r.successes == Successes(samples, |samples|)
    ensures Tallies(r.distribution, Sort(Latencies(samples))) && SumCounts(r.distribution, |Buckets()|) == r.successes
    ensures r.successes == 0 ==> r.figures == NO_FIGURES
    ensures r.successes > 0 ==>
              var f := r.figures;
              && Extremes(Latencies(samples), f.min, f.max)
              && (var sorted := Reals(Sort(Latencies(samples)));
                  && f.p50 == Percentile(sorted, 50.0).Floor && f.p90 == Percentile(sorted, 90.0).Floor
                  && f.p95 == Percentile(sorted, 95.0).Floor && f.p99 == Percentile(sorted, 99.0).Floor
                  && f.p999 == Percentile(sorted, 99.9).Floor)
              && f.min <= f.p50 <= f.p90 <= f.p95 <= f.p99 <= f.p999 <= f.max
              && (f.min <= f.avg <= f.max <==> TotalSuffices(Int64(Sum(Latencies(samples))), r.successes, f.min))
              && (Sum(Latencies(samples)) < TWO63 ==> f.min <= f.avg <= f.max)
              && (f.avg == Sum(Latencies(samples)) / r.successes <==> Sum(Latencies(samples)) < TWO63)
  {
    hide Extremes, Percentile, Buckets, BucketOf, Tallies, CountIn, SumCounts, Int64, Sort, Insert, Latencies,
      TotalSuffices, Successes;
    if samples == [] {
      EmptyReport(samples);
      LatenciesAre(samples, 0);
      return Report(0, 0, 0, NO_FIGURES, map[]);
    }
    assert samples[..|samples|] == samples;
    var t := Aggregate(samples);
    LatenciesTimed(samples);
    LatenciesAre(samples, |samples|);
    var xs := t.latencies;
    var sorted := Sort(xs);
    var dist := BuildDistribution(sorted);
    forall x | x in sorted
      ensures 0 <= x < TWO63
    {
      SortHolds(xs, x);
    }
    CountsAddUp(dist, sorted);
    var f := NO_FIGURES;
    if xs != [] {
      AverageExact(xs);
      AverageBetween(xs, t.min, t.max);
      if Sum(xs) < TWO63 {
        SmallTotalSuffices(xs, t.min, t.max);
      }
      ReportOrdered(xs, t.min, t.max);
      var s := Reals(sorted);
      f := Figures(
        Truncated(t.total, |xs|), t.min, t.max,
        Percentile(s, 50.0).Floor, Percentile(s, 90.0).Floor, Percentile(s, 95.0).Floor,
        Percentile(s, 99.0).Floor, Percentile(s, 99.9).Floor);
    }
    r := Report(|samples|, t.successes, t.errors, f, dist);
  }

  lemma EmptyReport(samples: seq<Sample>)
    requires samples == []
    ensures Latencies(samples) == [] && SumCounts(map[], |Buckets()|) == 0 && Tallies(map[], Sort([]))
  {
    hide Buckets, BucketOf;
    assert Sort([]) == [];
    CountsAddUp(map[], []);
  }
}
