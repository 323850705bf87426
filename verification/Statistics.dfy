/** The statistics behind the detectors, over real numbers: inter-arrival variance and
    lag-1 autocorrelation. */
module Statistics {
  import Rounding

  function Sum(xs: seq<real>): real {
    if xs == [] then 0.0 else Sum(xs[..|xs| - 1]) + xs[|xs| - 1]
  }

  function Mean(xs: seq<real>): real
    requires xs != []
  {
    Sum(xs) / |xs| as real
  }

  function Product(a: real, b: real): real {
    a * b
  }

  function Square(x: real): real {
    Product(x, x)
  }

  /** Sum of squared distances from `m`. */
  function SquaredError(xs: seq<real>, m: real): real {
    if xs == [] then 0.0
    else SquaredError(xs[..|xs| - 1], m) + Square(xs[|xs| - 1] - m)
  }

  function Variance(xs: seq<real>): real
    requires xs != []
  {
    SquaredError(xs, Mean(xs)) / |xs| as real
  }

  function Deltas(ts: seq<real>): (ds: seq<real>)
    ensures |ds| == if ts == [] then 0 else |ts| - 1
    ensures forall i | 0 <= i < |ds| :: ds[i] == ts[i + 1] - ts[i]
  {
    if ts == [] then [] else seq(|ts| - 1, i requires 0 <= i < |ts| - 1 => ts[i + 1] - ts[i])
  }

  predicate Sorted(ts: seq<real>) {
    forall i, j | 0 <= i <= j < |ts| :: ts[i] <= ts[j]
  }

  function InsertSorted(ts: seq<real>, x: real): seq<real> {
    if ts == [] || ts[|ts| - 1] <= x then ts + [x]
    else InsertSorted(ts[..|ts| - 1], x) + [ts[|ts| - 1]]
  }

  /** `sorted(ts)` */
  function SortedOf(ts: seq<real>): seq<real> {
    if ts == [] then [] else InsertSorted(SortedOf(ts[..|ts| - 1]), ts[|ts| - 1])
  }

  /** The variance of consecutive gaps before rounding; zero below three timestamps. */
  function GapVariance(ts: seq<real>): real {
    if |ts| < 3 then 0.0
    else
      SortedSpec(ts);
      Variance(Deltas(SortedOf(ts)))
  }

  /** `calculate_inter_arrival_variance`. */
  function InterArrivalVariance(ts: seq<real>): real {
    Rounding.Round(GapVariance(ts), 1000000.0)
  }

  // ---------- Sorting ----------

  lemma {:induction false} InsertSortedItems(ts: seq<real>, x: real)
    ensures multiset(InsertSorted(ts, x)) == multiset(ts) + multiset{x}
  {
    if ts == [] || ts[|ts| - 1] <= x {
      assert multiset(ts + [x]) == multiset(ts) + multiset{x};
    } else {
      var front, last := ts[..|ts| - 1], ts[|ts| - 1];
      InsertSortedItems(front, x);
      assert ts == front + [last];
    }
  }

  lemma {:induction false} InsertSortedSpec(ts: seq<real>, x: real)
    requires Sorted(ts)
    ensures Sorted(InsertSorted(ts, x))
  {
    if ts != [] && ts[|ts| - 1] > x {
      var front, last := ts[..|ts| - 1], ts[|ts| - 1];
      InsertSortedSpec(front, x);
      var r := InsertSorted(front, x);
      InsertSortedItems(front, x);
      forall i | 0 <= i < |r| ensures r[i] <= last {
        assert r[i] in multiset(r);
        assert r[i] == x || r[i] in front;
      }
    }
  }

  lemma {:induction false} SortedSpec(ts: seq<real>)
    ensures Sorted(SortedOf(ts)) && multiset(SortedOf(ts)) == multiset(ts) && |SortedOf(ts)| == |ts|
  {
    if ts != [] {
      var front, last := ts[..|ts| - 1], ts[|ts| - 1];
      SortedSpec(front);
      InsertSortedSpec(SortedOf(front), last);
      InsertSortedItems(SortedOf(front), last);
      assert ts == front + [last];
      assert |SortedOf(ts)| == |multiset(SortedOf(ts))|;
    }
  }

  lemma {:induction false} WithoutLast(a: seq<real>)
    requires a != []
    ensures multiset(a[..|a| - 1]) == multiset(a) - multiset{a[|a| - 1]}
  {
    assert a == a[..|a| - 1] + [a[|a| - 1]];
  }

  lemma {:induction false} SortedIsUnique(a: seq<real>, b: seq<real>)
    requires Sorted(a) && Sorted(b) && multiset(a) == multiset(b)
    ensures a == b
  {
    assert |a| == |multiset(a)| == |multiset(b)| == |b|;
    if a != [] {
      var n := |a| - 1;
      assert a[n] in multiset(b) && b[n] in multiset(a);
      assert a[n] == b[n];
      WithoutLast(a);
      WithoutLast(b);
      SortedIsUnique(a[..n], b[..n]);
      assert a == a[..n] + [a[n]] && b == b[..n] + [b[n]];
    }
  }

  /** The order in which timestamps are listed does not matter. */
  lemma {:induction false} VarianceIgnoresOrder(a: seq<real>, b: seq<real>)
    requires multiset(a) == multiset(b)
    ensures GapVariance(a) == GapVariance(b) && InterArrivalVariance(a) == InterArrivalVariance(b)
  {
    assert |a| == |multiset(a)| == |multiset(b)| == |b|;
    SortedSpec(a);
    SortedSpec(b);
    SortedIsUnique(SortedOf(a), SortedOf(b));
  }

  lemma {:induction false} AlreadySorted(ts: seq<real>)
    requires Sorted(ts)
    ensures SortedOf(ts) == ts
  {
    SortedSpec(ts);
    SortedIsUnique(SortedOf(ts), ts);
  }

  // ---------- Variance ----------

  lemma {:induction false} ProductSign(a: real, b: real)
    ensures a > 0.0 && b > 0.0 ==> Product(a, b) > 0.0
    ensures a < 0.0 && b < 0.0 ==> Product(a, b) > 0.0
    ensures a == 0.0 ==> Product(a, b) == 0.0
  {
  }

  lemma {:induction false} SquareSign(x: real)
    ensures Square(x) >= 0.0 && (Square(x) == 0.0 <==> x == 0.0)
  {
    ProductSign(x, x);
  }

  lemma {:induction false} SquaredErrorZero(xs: seq<real>, m: real)
    ensures SquaredError(xs, m) >= 0.0
    ensures SquaredError(xs, m) == 0.0 <==> forall i | 0 <= i < |xs| :: xs[i] == m
  {
    if xs != [] {
      var n := |xs| - 1;
      SquaredErrorZero(xs[..n], m);
      SquareSign(xs[n] - m);
      if SquaredError(xs, m) == 0.0 {
        forall i | 0 <= i < |xs| ensures xs[i] == m {
          assert i < n ==> xs[i] == xs[..n][i];
        }
      }
    }
  }

  lemma {:induction false} SumOfEqual(xs: seq<real>, d: real)
    requires forall i | 0 <= i < |xs| :: xs[i] == d
    ensures Sum(xs) == |xs| as real * d
  {
    if xs != [] {
      var n := |xs| - 1;
      SumOfEqual(xs[..n], d);
      assert (n + 1) as real * d == n as real * d + d;
    }
  }

  lemma {:induction false} QuotientZero(x: real, n: nat)
    requires n > 0 && x >= 0.0
    ensures x / n as real >= 0.0 && (x / n as real == 0.0 <==> x == 0.0)
  {
    assert x == x / n as real * n as real;
  }

  lemma {:induction false} MeanOfEqual(xs: seq<real>, d: real)
    requires xs != [] && forall i | 0 <= i < |xs| :: xs[i] == d
    ensures Mean(xs) == d
  {
    SumOfEqual(xs, d);
  }

  predicate AllEqual(xs: seq<real>) {
    forall i, j | 0 <= i < j < |xs| :: xs[i] == xs[j]
  }

  lemma {:induction false} VarianceZero(xs: seq<real>)
    requires xs != []
    ensures Variance(xs) >= 0.0
    ensures Variance(xs) == 0.0 <==> AllEqual(xs)
  {
    SquaredErrorZero(xs, Mean(xs));
    QuotientZero(SquaredError(xs, Mean(xs)), |xs|);
    if AllEqual(xs) {
      MeanOfEqual(xs, xs[0]);
    }
  }

  /** Never negative; and for three or more timestamps, zero exactly when the sorted
      timestamps are equally spaced. */
  lemma {:induction false} GapVarianceZero(ts: seq<real>)
    ensures GapVariance(ts) >= 0.0
    ensures |ts| >= 3 ==> (GapVariance(ts) == 0.0 <==> AllEqual(Deltas(SortedOf(ts))))
  {
    SortedSpec(ts);
    if |ts| >= 3 {
      VarianceZero(Deltas(SortedOf(ts)));
    }
  }

  // ---------- Mean of squares minus square of the mean ----------

  function Squares(xs: seq<real>): real {
    if xs == [] then 0.0 else Squares(xs[..|xs| - 1]) + Square(xs[|xs| - 1])
  }

  lemma {:induction false} SquareOfDifference(x: real, m: real)
    ensures Square(x - m) == Square(x) - 2.0 * Product(m, x) + Square(m)
  {
  }

  lemma {:induction false} ProductSum(m: real, a: real, b: real)
    ensures Product(m, a + b) == Product(m, a) + Product(m, b)
  {
  }

  lemma {:induction false} ErrorExpands(xs: seq<real>, m: real)
    ensures SquaredError(xs, m) == Squares(xs) - 2.0 * Product(m, Sum(xs)) + Product(|xs| as real, Square(m))
  {
    if xs != [] {
      var n := |xs| - 1;
      ErrorExpands(xs[..n], m);
      SquareOfDifference(xs[n], m);
      ProductSum(m, Sum(xs[..n]), xs[n]);
      ProductSum(Square(m), n as real, 1.0);
      assert Product(|xs| as real, Square(m)) == Product(n as real, Square(m)) + Square(m);
    }
  }

  lemma {:induction false} MeanTimes(xs: seq<real>)
    requires xs != []
    ensures Sum(xs) == Product(Mean(xs), |xs| as real)
  {
  }

  lemma {:induction false} Twice(m: real, n: real)
    ensures Product(m, Product(m, n)) == Product(n, Square(m))
  {
  }

  /** The variance is the mean of the squares minus the square of the mean. */
  lemma {:induction false} VarianceIdentity(xs: seq<real>)
    requires xs != []
    ensures Variance(xs) == Squares(xs) / |xs| as real - Square(Mean(xs))
  {
    var n, m := |xs| as real, Mean(xs);
    ErrorExpands(xs, m);
    MeanTimes(xs);
    Twice(m, n);
    Shares(SquaredError(xs, m), Squares(xs), Square(m), n);
  }

  lemma {:induction false} Shares(e: real, s: real, q: real, n: real)
    requires n > 0.0 && e == s - Product(n, q)
    ensures e / n == s / n - q
  {
    assert Product(n, q) / n == q;
  }

  // ---------- Values near a point ----------

  /** Every value lies within `d` of `p`. */
  predicate Near(xs: seq<real>, p: real, d: real) {
    forall i | 0 <= i < |xs| :: p - d <= xs[i] <= p + d
  }

  lemma {:induction false} SquareWithin(x: real, d: real)
    requires -d <= x <= d
    ensures Square(x) <= Square(d)
  {
    assert (d - x) * (d + x) >= 0.0;
    assert (d - x) * (d + x) == d * d - x * x;
  }

  lemma {:induction false} NearError(xs: seq<real>, p: real, d: real)
    requires Near(xs, p, d)
    ensures SquaredError(xs, p) <= Product(|xs| as real, Square(d))
  {
    if xs != [] {
      var n := |xs| - 1;
      NearError(xs[..n], p, d);
      SquareWithin(xs[n] - p, d);
      ProductSum(Square(d), n as real, 1.0);
      assert Product(|xs| as real, Square(d)) == Product(n as real, Square(d)) + Square(d);
    }
  }

  lemma {:induction false} Quadratic(n: real, m: real, p: real)
    ensures Product(n, Square(p)) - 2.0 * Product(p, Product(m, n))
         == Product(n, Square(m)) - 2.0 * Product(m, Product(m, n)) + Product(n, Square(p - m))
  {
  }

  /** Around another point than the mean, the squared error grows by the squared distance. */
  lemma {:induction false} ErrorAround(xs: seq<real>, p: real)
    requires xs != []
    ensures SquaredError(xs, p) == SquaredError(xs, Mean(xs)) + Product(|xs| as real, Square(p - Mean(xs)))
  {
    var n, m := |xs| as real, Mean(xs);
    ErrorExpands(xs, p);
    ErrorExpands(xs, m);
    MeanTimes(xs);
    Quadratic(n, m, p);
  }

  /** No point has a smaller squared error than the mean. */
  lemma {:induction false} MeanMinimizes(xs: seq<real>, p: real)
    requires xs != []
    ensures SquaredError(xs, Mean(xs)) <= SquaredError(xs, p)
  {
    var n, m := |xs| as real, Mean(xs);
    ErrorAround(xs, p);
    SquareSign(p - m);
    ProductSign(n, Square(p - m));
    ProductSign(Square(p - m), n);
  }

  lemma {:induction false} Share(e: real, n: real, q: real)
    requires n > 0.0 && e <= Product(n, q)
    ensures e / n <= q
  {
    assert Product(n, q) / n == q;
  }

  /** Values within `d` of one point have a variance of at most the square of `d`. */
  lemma {:induction false} NearVariance(xs: seq<real>, p: real, d: real)
    requires xs != [] && Near(xs, p, d)
    ensures Variance(xs) <= Square(d)
  {
    MeanMinimizes(xs, p);
    NearError(xs, p, d);
    Share(SquaredError(xs, Mean(xs)), |xs| as real, Square(d));
  }

  lemma {:induction false} NearSum(xs: seq<real>, low: real)
    requires forall i | 0 <= i < |xs| :: xs[i] >= low
    ensures Sum(xs) >= Product(|xs| as real, low)
  {
    if xs != [] {
      var n := |xs| - 1;
      NearSum(xs[..n], low);
      ProductSum(low, n as real, 1.0);
      assert Product(|xs| as real, low) == Product(n as real, low) + low;
    }
  }

  lemma {:induction false} MeanAtLeast(xs: seq<real>, low: real)
    requires xs != [] && forall i | 0 <= i < |xs| :: xs[i] >= low
    ensures Mean(xs) >= low
  {
    NearSum(xs, low);
    assert Product(|xs| as real, low) / |xs| as real == low;
    assert Sum(xs) / |xs| as real >= Product(|xs| as real, low) / |xs| as real;
  }

  // ---------- Autocorrelation ----------

  /** Distances from `m`. */
  function Centered(xs: seq<real>, m: real): (r: seq<real>)
    ensures |r| == |xs| && forall i | 0 <= i < |xs| :: r[i] == xs[i] - m
  {
    seq(|xs|, i requires 0 <= i < |xs| => xs[i] - m)
  }

  /** Sum of products of neighbours. */
  function Lagged(xs: seq<real>): real {
    if |xs| < 2 then 0.0 else Lagged(xs[..|xs| - 1]) + xs[|xs| - 2] * xs[|xs| - 1]
  }

  function Clamp(x: real, lo: real, hi: real): real {
    if x < lo then lo else if x > hi then hi else x
  }

  /** The coefficient before rounding. */
  function Autocorrelation(deltas: seq<real>): real
    requires deltas != []
  {
    if Variance(deltas) <= 0.000001 then 1.0
    else
      var m := Mean(deltas);
      Clamp(Lagged(Centered(deltas, m)) / Rounding.Max(SquaredError(deltas, m), 0.000001), -1.0, 1.0)
  }

  lemma {:induction false} ProductBound(a: real, b: real)
    ensures 2.0 * (a * b) <= Square(a) + Square(b)
    ensures -(Square(a) + Square(b)) <= 2.0 * (a * b)
  {
    SquareSign(a - b);
    SquareSign(a + b);
    assert (a - b) * (a - b) == a * a - 2.0 * (a * b) + b * b;
    assert (a + b) * (a + b) == a * a + 2.0 * (a * b) + b * b;
  }

  lemma {:induction false} LaggedBound(xs: seq<real>)
    requires xs != []
    ensures var last := xs[|xs| - 1];
      && 2.0 * Lagged(xs) <= 2.0 * SquaredError(xs, 0.0) - Square(last)
      && -(2.0 * SquaredError(xs, 0.0) - Square(last)) <= 2.0 * Lagged(xs)
  {
    var n := |xs| - 1;
    if n == 0 {
      assert xs[..0] == [];
      SquareSign(xs[0]);
    } else {
      LaggedBound(xs[..n]);
      ProductBound(xs[n - 1], xs[n]);
    }
  }

  lemma {:induction false} CenteredError(xs: seq<real>, m: real)
    ensures SquaredError(Centered(xs, m), 0.0) == SquaredError(xs, m)
  {
    if xs != [] {
      CenteredError(xs[..|xs| - 1], m);
      assert Centered(xs, m)[..|xs| - 1] == Centered(xs[..|xs| - 1], m);
    }
  }

  /** The numerator is bounded by the denominator. */
  lemma {:induction false} NumeratorWithinDenominator(xs: seq<real>, m: real)
    requires xs != []
    ensures -SquaredError(xs, m) <= Lagged(Centered(xs, m)) <= SquaredError(xs, m)
  {
    var c := Centered(xs, m);
    LaggedBound(c);
    CenteredError(xs, m);
    SquareSign(c[|c| - 1]);
  }

  lemma {:induction false} UnitQuotient(num: real, den: real)
    requires den > 0.0 && -den <= num <= den
    ensures -1.0 <= num / den <= 1.0
  {
  }

  /** With two or more gaps, neither the clamp nor the floor on the denominator has any
      effect: the coefficient is the plain quotient. */
  lemma {:induction false} ClampsNeverBind(deltas: seq<real>)
    requires |deltas| >= 2 && Variance(deltas) > 0.000001
    ensures var m := Mean(deltas);
      && SquaredError(deltas, m) > 0.000001
      && Autocorrelation(deltas) == Lagged(Centered(deltas, m)) / SquaredError(deltas, m)
  {
    var m := Mean(deltas);
    var den, n := SquaredError(deltas, m), |deltas| as real;
    assert den == den / n * n;
    assert den / n * n >= den / n * 2.0;
    NumeratorWithinDenominator(deltas, m);
    UnitQuotient(Lagged(Centered(deltas, m)), den);
  }

  // ---------- Alternating values ----------

  /** Every value is `d` away from `p`, on alternating sides. */
  predicate Alternating(xs: seq<real>, p: real, d: real) {
    && (forall i | 0 <= i < |xs| :: xs[i] == p - d || xs[i] == p + d)
    && (forall i | 0 <= i < |xs| - 1 :: xs[i] + xs[i + 1] == 2.0 * p)
  }

  lemma {:induction false} AlternatingFront(xs: seq<real>, p: real, d: real)
    requires Alternating(xs, p, d) && xs != []
    ensures Alternating(xs[..|xs| - 1], p, d)
  {
  }

  lemma {:induction false} AlternatingSum(xs: seq<real>, p: real, d: real)
    requires Alternating(xs, p, d)
    ensures Sum(xs) == Product(|xs| as real, p) + if |xs| % 2 == 0 then 0.0 else xs[|xs| - 1] - p
  {
    if xs != [] {
      var n := |xs| - 1;
      AlternatingFront(xs, p, d);
      AlternatingSum(xs[..n], p, d);
      ProductSum(p, n as real, 1.0);
      assert Product(|xs| as real, p) == Product(n as real, p) + p;
      if n > 0 {
        assert xs[n - 1] + xs[n] == 2.0 * p;
      }
    }
  }

  lemma {:induction false} Third(n: nat, x: real, d: real)
    requires n >= 3 && d >= 0.0 && -d <= x <= d
    ensures -d / 3.0 <= x / n as real <= d / 3.0
  {
    assert x / n as real * n as real == x;
    assert d / 3.0 * n as real >= d;
  }

  lemma {:induction false} Cancel(n: real, s: real)
    requires n > 0.0
    ensures Product(n, s) / n == s
  {
  }

  lemma {:induction false} Divide(n: real, p: real, x: real)
    requires n > 0.0
    ensures (Product(n, p) + x) / n == p + x / n
  {
    var q := x / n;
    assert x == Product(n, q);
    ProductSum(n, p, q);
    Cancel(n, p + q);
  }

  /** The mean of two or more alternating values lies within a third of `d` around `p`. */
  lemma {:induction false} AlternatingMean(xs: seq<real>, p: real, d: real)
    requires Alternating(xs, p, d) && |xs| >= 2 && d >= 0.0
    ensures p - d / 3.0 <= Mean(xs) <= p + d / 3.0
  {
    AlternatingSum(xs, p, d);
    var n, x := |xs|, if |xs| % 2 == 0 then 0.0 else xs[|xs| - 1] - p;
    Divide(n as real, p, x);
    if n >= 3 {
      Third(n, x, d);
    }
  }

  lemma {:induction false} AlternatingError(xs: seq<real>, p: real, d: real)
    requires Alternating(xs, p, d)
    ensures SquaredError(xs, p) == Product(|xs| as real, Square(d))
  {
    if xs != [] {
      var n := |xs| - 1;
      AlternatingFront(xs, p, d);
      AlternatingError(xs[..n], p, d);
      ProductSum(Square(d), n as real, 1.0);
      assert Product(|xs| as real, Square(d)) == Product(n as real, Square(d)) + Square(d);
      assert Square(xs[n] - p) == Square(d);
    }
  }

  lemma {:induction false} ShareDifference(e: real, n: real, a: real, b: real)
    requires n > 0.0 && Product(n, a) == e + Product(n, b)
    ensures e / n == a - b
  {
    assert (Product(n, a) - Product(n, b)) / n == a - b;
  }

  /** Alternating values have a variance of at least eight ninths of the square of `d`. */
  lemma {:induction false} AlternatingVariance(xs: seq<real>, p: real, d: real)
    requires Alternating(xs, p, d) && |xs| >= 2 && d >= 0.0
    ensures 9.0 * Variance(xs) >= 8.0 * Square(d)
  {
    var n, m := |xs| as real, Mean(xs);
    AlternatingMean(xs, p, d);
    AlternatingError(xs, p, d);
    ErrorAround(xs, p);
    ShareDifference(SquaredError(xs, m), n, Square(d), Square(p - m));
    SquareWithin(p - m, d / 3.0);
    assert 9.0 * Square(d / 3.0) == Square(d);
  }

  lemma {:induction false} OppositeSides(a: real, b: real, m: real, p: real, d: real)
    requires (a == p - d || a == p + d) && a + b == 2.0 * p && -d <= p - m <= d && d >= 0.0
    ensures (a - m) * (b - m) <= 0.0
  {
    var s, u := a - p, p - m;
    assert (a - m) * (b - m) == (u + s) * (u - s);
    assert (u + s) * (u - s) == u * u - s * s;
    assert s * s == d * d;
    SquareWithin(u, d);
  }

  lemma {:induction false} LastPair(xs: seq<real>, p: real, d: real, m: real)
    requires Alternating(xs, p, d) && |xs| >= 2 && -d <= p - m <= d && d >= 0.0
    ensures Centered(xs, m)[|xs| - 2] * Centered(xs, m)[|xs| - 1] <= 0.0
  {
    var n := |xs| - 1;
    assert xs[n - 1] + xs[n] == 2.0 * p;
    OppositeSides(xs[n - 1], xs[n], m, p, d);
  }

  lemma {:induction false} LaggedNotPositive(c: seq<real>)
    requires |c| >= 2 && Lagged(c[..|c| - 1]) <= 0.0 && c[|c| - 2] * c[|c| - 1] <= 0.0
    ensures Lagged(c) <= 0.0
  {
  }

  /** Neighbours never agree: the lag-1 sum is not positive. */
  lemma {:induction false} AlternatingLag(xs: seq<real>, p: real, d: real, m: real)
    requires Alternating(xs, p, d) && -d <= p - m <= d && d >= 0.0
    ensures Lagged(Centered(xs, m)) <= 0.0
  {
    if |xs| >= 2 {
      var n := |xs| - 1;
      AlternatingFront(xs, p, d);
      AlternatingLag(xs[..n], p, d, m);
      assert Centered(xs, m)[..n] == Centered(xs[..n], m);
      LastPair(xs, p, d, m);
      LaggedNotPositive(Centered(xs, m));
    }
  }
}
