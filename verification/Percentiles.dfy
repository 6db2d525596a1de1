/** The two percentile definitions of the trace tools, over exact numbers. */
module Percentiles {
  import opened Arithmetic
  import opened Ordering
  import opened Ranks

  predicate RealLe(a: real, b: real) { a <= b }

  lemma RealLeTotal()
    ensures TotalOrder(RealLe)
  {
  }

  function SortedValues(values: seq<real>): (r: seq<real>)
    ensures |r| == |values| && multiset(r) == multiset(values)
  {
    Sort(values, RealLe)
  }

  lemma SortedUp(values: seq<real>, i: nat, j: nat)
    requires i <= j < |values|
    ensures SortedValues(values)[i] <= SortedValues(values)[j]
  {
    RealLeTotal();
    SortSorted(values, RealLe);
  }

  ghost predicate IsLeast(m: real, values: seq<real>) { m in values && forall v :: v in values ==> m <= v }
  ghost predicate IsGreatest(m: real, values: seq<real>) { m in values && forall v :: v in values ==> v <= m }

  lemma Extremes(values: seq<real>)
    requires values != []
    ensures IsLeast(SortedValues(values)[0], values)
    ensures IsGreatest(SortedValues(values)[|values| - 1], values)
  {
    var s := SortedValues(values);
    SortMembers(values, RealLe);
    assert s[0] in s && s[|s| - 1] in s;
    forall v | v in values ensures s[0] <= v <= s[|s| - 1] {
      var k :| 0 <= k < |s| && s[k] == v;
      SortedUp(values, 0, k);
      SortedUp(values, k, |s| - 1);
    }
  }

  lemma SortedPermutation(a: seq<real>, b: seq<real>)
    requires multiset(a) == multiset(b)
    ensures SortedValues(a) == SortedValues(b)
  {
    RealLeTotal();
    SortPermutation(a, b, RealLe);
  }

  // ---------------------------------------------------------------- interpolated percentile

  /** The point a share `t` of the way from a to b. */
  function Between(a: real, b: real, t: real): real { a + (b - a) * t }

  lemma BetweenEnds(a: real, b: real, t: real, u: real)
    requires a <= b && 0.0 <= t <= u <= 1.0
    ensures a <= Between(a, b, t) <= Between(a, b, u) <= b
  {
    var d := b - a;
    ProductNotNegative(d, t);
    ProductNotNegative(d, u - t);
    ProductNotNegative(d, 1.0 - u);
    assert d * u == d * t + d * (u - t);
    assert d == d * u + d * (1.0 - u);
  }

  /** The piecewise linear curve through the sorted values, at a real position. */
  function Curve(s: seq<real>, x: real): real
    requires s != [] && 0.0 <= x <= (|s| - 1) as real
  {
    var lower := x.Floor;
    if lower as real == x then s[lower] else Between(s[lower], s[lower + 1], x - lower as real)
  }

  function Position(n: nat, quantile: real): (x: real)
    requires n > 0 && 0.0 <= quantile <= 1.0
    ensures 0.0 <= x <= (n - 1) as real
  {
    ProductNotNegative((n - 1) as real, quantile);
    ProductNotNegative((n - 1) as real, 1.0 - quantile);
    ((n - 1) as real) * quantile
  }

  function Percentile(values: seq<real>, quantile: real): real
    requires 0.0 <= quantile <= 1.0
  {
    if values == [] then 0.0
    else Curve(SortedValues(values), Position(|values|, quantile))
  }

  ghost predicate Rising(s: seq<real>) { forall i, j :: 0 <= i <= j < |s| ==> s[i] <= s[j] }

  /** Between two grid points the curve stays between their values. */
  lemma CurveBetween(s: seq<real>, x: real)
    requires s != [] && Rising(s) && 0.0 <= x <= (|s| - 1) as real
    ensures s[x.Floor] <= Curve(s, x)
    ensures x.Floor + 1 < |s| ==> Curve(s, x) <= s[x.Floor + 1]
    ensures s[0] <= Curve(s, x) <= s[|s| - 1]
  {
    hide Between;
    var i := x.Floor;
    if i as real != x {
      BetweenEnds(s[i], s[i + 1], x - i as real, x - i as real);
    }
  }

  lemma CurveMonotone(s: seq<real>, x: real, y: real)
    requires s != [] && Rising(s) && 0.0 <= x <= y <= (|s| - 1) as real
    ensures Curve(s, x) <= Curve(s, y)
  {
    hide Between;
    var i, j := x.Floor, y.Floor;
    CurveBetween(s, x);
    CurveBetween(s, y);
    if i == j {
      if i as real < x {
        BetweenEnds(s[i], s[i + 1], x - i as real, y - i as real);
      }
    } else {
      assert s[i + 1] <= s[j];
    }
  }

  lemma PositionMonotone(n: nat, p: real, q: real)
    requires n > 0 && 0.0 <= p <= q <= 1.0
    ensures Position(n, p) <= Position(n, q)
  {
    var d := (n - 1) as real;
    ProductNotNegative(d, q - p);
    assert d * q == d * p + d * (q - p);
  }

  lemma SortedRising(values: seq<real>)
    ensures Rising(SortedValues(values))
  {
    forall i, j | 0 <= i <= j < |values| ensures SortedValues(values)[i] <= SortedValues(values)[j] {
      SortedUp(values, i, j);
    }
  }

  /** Interpolated percentiles lie between the least and the greatest value. */
  lemma PercentileWithinRange(values: seq<real>, q: real, least: real, greatest: real)
    requires values != [] && 0.0 <= q <= 1.0 && IsLeast(least, values) && IsGreatest(greatest, values)
    ensures least <= Percentile(values, q) <= greatest
  {
    SortedRising(values);
    Extremes(values);
    CurveBetween(SortedValues(values), Position(|values|, q));
  }

  /** Interpolated percentiles are monotone in the quantile. */
  lemma PercentileMonotone(values: seq<real>, p: real, q: real)
    requires 0.0 <= p <= q <= 1.0
    ensures Percentile(values, p) <= Percentile(values, q)
  {
    if values != [] {
      SortedRising(values);
      PositionMonotone(|values|, p, q);
      CurveMonotone(SortedValues(values), Position(|values|, p), Position(|values|, q));
    }
  }

  lemma HasRank(values: seq<real>, k: nat)
    requires k < |values|
    ensures AtRank(SortedValues(values)[k], k, values, RealLe)
  {
    RealLeTotal();
    SortedAtRank(values, RealLe, k);
  }

  lemma ValueAtRank(values: seq<real>, k: nat, v: real)
    requires k < |values| && AtRank(v, k, values, RealLe)
    ensures SortedValues(values)[k] == v
  {
    hide AtRank, SortedValues;
    RealLeTotal();
    HasRank(values, k);
    RankUnique(SortedValues(values)[k], v, k, values, RealLe);
  }

  /** The percentile exactly: where (n - 1) * q is k + t with 0 <= t < 1, it lies the share t of the way from the value
      of rank k to the value of rank k + 1. */
  lemma PercentileExactly(values: seq<real>, q: real, k: nat, t: real, lo: real, hi: real)
    requires values != [] && 0.0 <= q <= 1.0 && 0.0 <= t < 1.0 && (|values| - 1) as real * q == k as real + t
    requires AtRank(lo, k, values, RealLe) && (t > 0.0 ==> AtRank(hi, k + 1, values, RealLe))
    ensures Percentile(values, q) == if t == 0.0 then lo else lo + (hi - lo) * t
  {
    hide SortedValues, AtRank;
    var x := Position(|values|, q);
    assert x.Floor == k;
    ValueAtRank(values, k, lo);
    if t > 0.0 {
      ValueAtRank(values, k + 1, hi);
    }
  }

  lemma PercentilePermutation(a: seq<real>, b: seq<real>, q: real)
    requires multiset(a) == multiset(b) && 0.0 <= q <= 1.0
    ensures Percentile(a, q) == Percentile(b, q)
  {
    assert |multiset(a)| == |multiset(b)|;
    SortedPermutation(a, b);
  }

  datatype MetricSummary = MetricSummary(count: nat, p50: real, p90: real, p99: real, max: real)

  function Greatest(values: seq<real>): real {
    if values == [] then 0.0 else SortedValues(values)[|values| - 1]
  }

  /** `_metric_summary` before rounding. */
  function Summarize(values: seq<real>): (r: MetricSummary) {
    MetricSummary(|values|, Percentile(values, 0.5), Percentile(values, 0.9), Percentile(values, 0.99),
                  Greatest(values))
  }

  lemma SummaryOrdered(values: seq<real>)
    ensures var r := Summarize(values); r.p50 <= r.p90 <= r.p99 <= r.max
    ensures values != [] ==> IsGreatest(Summarize(values).max, values)
  {
    PercentileMonotone(values, 0.5, 0.9);
    PercentileMonotone(values, 0.9, 0.99);
    if values != [] {
      Extremes(values);
      PercentileWithinRange(values, 0.99, SortedValues(values)[0], SortedValues(values)[|values| - 1]);
    }
  }

  // ---------------------------------------------------------------- index-based percentile

  /** `vals[min(int(len(vals) * p), len(vals) - 1)]` with p in ten-thousandths. */
  function RankIndex(n: nat, p: nat): (i: nat)
    requires n > 0 && p <= 10_000
    ensures i < n && (i == n - 1 || i <= n * p / 10_000)
  {
    if n * p / 10_000 < n then n * p / 10_000 else n - 1
  }

  function Median(s: seq<real>): real
    requires s != []
  {
    if |s| % 2 == 1 then s[|s| / 2] else (s[|s| / 2 - 1] + s[|s| / 2]) / 2.0
  }

  datatype Spread = Empty | Spread(count: nat, min: real, p50: real, p90: real, p99: real, max: real)

  /** `_percentiles` before rounding. */
  function Spreads(values: seq<real>): Spread {
    if values == [] then Empty
    else
      var s := SortedValues(values);
      var n := |s|;
      Spread(n, s[0], Median(s),
             if n == 1 then s[0] else s[RankIndex(n, 9_000)],
             if n == 1 then s[0] else s[RankIndex(n, 9_900)],
             s[n - 1])
  }

  lemma SpreadOrdered(values: seq<real>)
    requires values != []
    ensures var r := Spreads(values); r.min <= r.p50 <= r.p90 <= r.p99 <= r.max
    ensures IsLeast(Spreads(values).min, values) && IsGreatest(Spreads(values).max, values)
  {
    var n := |values|;
    SortedRising(values);
    Extremes(values);
    assert n > 1 ==> n / 2 <= RankIndex(n, 9_000) <= RankIndex(n, 9_900);
  }

  lemma RankIndexIs(n: nat)
    requires n > 0
    ensures RankIndex(n, 9_000) == n * 9 / 10 < n && RankIndex(n, 9_900) == n * 99 / 100 < n
    ensures RankIndex(n, 9_999) == n * 9_999 / 10_000 < n
  {
  }

  /** The median exactly, and the ranks of the two index percentiles. */
  lemma SpreadExactly(values: seq<real>, lo: real, hi: real)
    requires values != []
    requires AtRank(lo, (|values| - 1) / 2, values, RealLe) && AtRank(hi, |values| / 2, values, RealLe)
    ensures Spreads(values).count == |values| && Spreads(values).p50 == (lo + hi) / 2.0
    ensures AtRank(Spreads(values).p90, |values| * 9 / 10, values, RealLe)
    ensures AtRank(Spreads(values).p99, |values| * 99 / 100, values, RealLe)
  {
    hide AtRank, SortedValues, RankIndex;
    var n := |values|;
    RankIndexIs(n);
    ValueAtRank(values, (n - 1) / 2, lo);
    ValueAtRank(values, n / 2, hi);
    HasRank(values, n * 9 / 10);
    HasRank(values, n * 99 / 100);
  }

  lemma SpreadPermutation(a: seq<real>, b: seq<real>)
    requires multiset(a) == multiset(b)
    ensures Spreads(a) == Spreads(b)
  {
    assert |multiset(a)| == |multiset(b)|;
    SortedPermutation(a, b);
  }
}
