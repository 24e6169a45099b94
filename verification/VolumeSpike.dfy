/** The volume-spike rule: one-minute buckets, mean and population deviation,
    and the alert condition without its square root.  Times are nanoseconds. */
module VolumeSpike {
  import Reals

  const SECOND: int := 1_000_000_000
  const MINUTE: int := 60 * SECOND
  const HOUR: int := 60 * MINUTE

  /** int(d.Minutes()): whole minutes, truncated towards zero. */
  function WholeMinutes(d: int): int {
    if d >= 0 then d / MINUTE else -(-d / MINUTE)
  }

  predicate Counted(now: int, t: int) {
    0 <= WholeMinutes(now - t) < 60
  }

  /** Ages strictly between minus one minute and sixty minutes are counted. */
  lemma CountedMeans(now: int, t: int)
    ensures Counted(now, t) <==> -MINUTE < now - t < 60 * MINUTE
  {
  }

  function CountCounted(now: int, times: seq<int>): nat {
    if |times| == 0 then 0
    else CountCounted(now, times[..|times| - 1]) + if Counted(now, times[|times| - 1]) then 1 else 0
  }

  /** How many of the times fall into minute `i`. */
  function InMinute(now: int, times: seq<int>, i: int): nat {
    if |times| == 0 then 0
    else InMinute(now, times[..|times| - 1], i) + if WholeMinutes(now - times[|times| - 1]) == i then 1 else 0
  }

  function Buckets(now: int, times: seq<int>): seq<real> {
    seq(60, i => InMinute(now, times, i) as real)
  }

  /** The counting loop of checkVolumeSpike. */
  method FillBuckets(now: int, times: seq<int>) returns (buckets: array<real>)
    ensures fresh(buckets) && buckets.Length == 60 && buckets[..] == Buckets(now, times)
  {
    buckets := new real[60](_ => 0.0);
    for k := 0 to |times|
      invariant buckets.Length == 60
      invariant forall i :: 0 <= i < 60 ==> buckets[i] == InMinute(now, times[..k], i) as real
    {
      assert times[..k + 1][..k] == times[..k];
      var idx := WholeMinutes(now - times[k]);
      if 0 <= idx < 60 {
        buckets[idx] := buckets[idx] + 1.0;
      }
    }
    assert times[..|times|] == times;
  }

  function SumOf(v: seq<real>): real {
    if |v| == 0 then 0.0 else SumOf(v[..|v| - 1]) + v[|v| - 1]
  }

  function Squared(x: real): real { x * x }

  function SumSquares(v: seq<real>): real {
    if |v| == 0 then 0.0 else SumSquares(v[..|v| - 1]) + Squared(v[|v| - 1])
  }

  function SquaredDeviations(v: seq<real>, m: real): real {
    if |v| == 0 then 0.0
    else SquaredDeviations(v[..|v| - 1], m) + Squared(v[|v| - 1] - m)
  }

  function MeanOf(v: seq<real>): real
    requires |v| > 0
  {
    SumOf(v) / |v| as real
  }

  function VarianceOf(v: seq<real>): real
    requires |v| > 0
  {
    SquaredDeviations(v, MeanOf(v)) / |v| as real
  }

  /** math.Sqrt on exact reals: the non-negative root. */
  ghost predicate IsSqrt(sqrt: real -> real) {
    forall x: real :: x >= 0.0 ==> sqrt(x) >= 0.0 && sqrt(x) * sqrt(x) == x
  }

  method MeanStddev(vals: seq<real>, sqrt: real -> real) returns (mean: real, stddev: real)
    ensures |vals| == 0 ==> mean == 0.0 && stddev == 0.0
    ensures |vals| > 0 ==> mean == MeanOf(vals) && stddev == sqrt(VarianceOf(vals))
  {
    if |vals| == 0 { return 0.0, 0.0; }
    var sum := 0.0;
    for i := 0 to |vals|
      invariant sum == SumOf(vals[..i])
    {
      assert vals[..i + 1][..i] == vals[..i];
      sum := sum + vals[i];
    }
    assert vals[..|vals|] == vals;
    mean := sum / |vals| as real;
    var variance := 0.0;
    for i := 0 to |vals|
      invariant variance == SquaredDeviations(vals[..i], mean)
    {
      assert vals[..i + 1][..i] == vals[..i];
      var d := vals[i] - mean;
      variance := variance + d * d;
    }
    variance := variance / |vals| as real;
    stddev := sqrt(variance);
  }

  function Expanded(q: real, s: real, n: real, m: real): real {
    q - 2.0 * m * s + n * m * m
  }

  /** The two-pass sum of squared deviations, expanded. */
  lemma {:induction false} DeviationsExpand(v: seq<real>, n: real, m: real)
    requires n == |v| as real
    ensures SquaredDeviations(v, m) == Expanded(SumSquares(v), SumOf(v), n, m)
    ensures SquaredDeviations(v, m) >= 0.0
  {
    if |v| == 0 {
      ExpandNothing(m);
    } else {
      var t, x := v[..|v| - 1], v[|v| - 1];
      hide Squared, Expanded;
      DeviationsExpand(t, n - 1.0, m);
      ExpandStep(SumSquares(t), SumOf(t), n - 1.0, m, x);
      Square(x - m);
    }
  }

  lemma ExpandNothing(m: real)
    ensures Expanded(0.0, 0.0, 0.0, m) == 0.0
  {
  }

  lemma ExpandStep(q: real, s: real, n: real, m: real, x: real)
    ensures Expanded(q, s, n, m) + Squared(x - m) == Expanded(q + Squared(x), s + x, n + 1.0, m)
  {
  }

  lemma Square(x: real)
    ensures Squared(x) >= 0.0
  {
  }

  /** The variance is never negative, and n*n times it is n*Q - S*S. */
  lemma VarianceScaled(v: seq<real>, n: real)
    requires |v| > 0 && n == |v| as real
    ensures VarianceOf(v) >= 0.0
    ensures n * n * VarianceOf(v) == n * SumSquares(v) - SumOf(v) * SumOf(v)
  {
    hide SquaredDeviations, SumSquares, SumOf;
    var m := MeanOf(v);
    DeviationsExpand(v, n, m);
    ScaledIdentity(n, m, SumOf(v), SumSquares(v), SquaredDeviations(v, m));
  }

  lemma ScaledIdentity(n: real, m: real, s: real, q: real, d: real)
    requires n > 0.0 && m == s / n && d == q - 2.0 * m * s + n * m * m && d >= 0.0
    ensures d / n >= 0.0 && n * n * (d / n) == n * q - s * s
  {
    assert n * m == s;
    assert n * m * m == s * m;
    assert d == q - m * s;
    assert n * n * (d / n) == n * d;
    assert n * (m * s) == s * s;
  }

  /** What checkVolumeSpike decides from the sixty buckets. */
  predicate Fires(buckets: seq<real>, threshold: real, sqrt: real -> real)
    requires |buckets| == 60
  {
    var history := buckets[1..];
    MeanOf(history) >= 1.0 && buckets[0] > MeanOf(history) + threshold * sqrt(VarianceOf(history))
  }

  lemma AboveIffSquares(x: real, y: real)
    requires y >= 0.0
    ensures x > y <==> x > 0.0 && x * x > y * y
  {
    if x > y {
      Positive(x, x - y);
      Reals.NonNegativeProduct(y, x - y);
      assert x * (x - y) == x * x - x * y;
      assert y * (x - y) == x * y - y * y;
    } else if x > 0.0 {
      Reals.NonNegativeProduct(x, y - x);
      Reals.NonNegativeProduct(y, y - x);
      assert x * (y - x) == x * y - x * x;
      assert y * (y - x) == y * y - x * y;
    }
  }

  lemma ScaledComparison(n: real, c: real, s: real, y: real)
    requires n > 0.0
    ensures c > s / n + y <==> n * c - s > n * y
  {
    var m := s / n;
    assert n * m == s;
    assert n * (c - m - y) == n * c - s - n * y;
    if c - m - y > 0.0 { Positive(n, c - m - y); } else { NotPositive(n, c - m - y); }
  }

  lemma Positive(n: real, x: real)
    requires n > 0.0 && x > 0.0
    ensures n * x > 0.0
  {
  }

  lemma NotPositive(n: real, x: real)
    requires n > 0.0 && x <= 0.0
    ensures n * x <= 0.0
  {
  }

  lemma SquareOfScaled(n: real, t: real, r: real, v: real, k: real)
    requires r * r == v && n * n * v == k
    ensures (n * (t * r)) * (n * (t * r)) == t * t * k
  {
    assert (n * (t * r)) * (n * (t * r)) == t * t * (n * n * (r * r));
  }

  lemma NonNegative(n: real, t: real, r: real)
    requires n >= 0.0 && t >= 0.0 && r >= 0.0
    ensures n * (t * r) >= 0.0
  {
    assert t * r >= 0.0;
  }

  lemma FiresSquared(n: real, c: real, s: real, t: real, r: real, v: real, k: real)
    requires n > 0.0 && t >= 0.0 && r >= 0.0 && r * r == v && n * n * v == k
    ensures c > s / n + t * r <==> n * c > s && (n * c - s) * (n * c - s) > t * t * k
  {
    ScaledComparison(n, c, s, t * r);
    NonNegative(n, t, r);
    AboveIffSquares(n * c - s, n * (t * r));
    SquareOfScaled(n, t, r, v, k);
  }

  /** The alert condition needs no square root: with S and Q the sum and the
      sum of squares of the 59 older buckets and c the current one. */
  lemma FiresWithoutRoot(buckets: seq<real>, threshold: real, sqrt: real -> real)
    requires |buckets| == 60 && threshold >= 0.0 && IsSqrt(sqrt)
    ensures var (c, s, q) := (buckets[0], SumOf(buckets[1..]), SumSquares(buckets[1..]));
            Fires(buckets, threshold, sqrt) <==>
            s >= 59.0 && 59.0 * c > s &&
            (59.0 * c - s) * (59.0 * c - s) > threshold * threshold * (59.0 * q - s * s)
  {
    var history := buckets[1..];
    VarianceScaled(history, 59.0);
    var v := VarianceOf(history);
    FiresSquared(59.0, buckets[0], SumOf(history), threshold, sqrt(v), v,
                 59.0 * SumSquares(history) - SumOf(history) * SumOf(history));
  }

  lemma {:induction false} ConstantSum(v: seq<real>, k: real)
    requires forall i :: 0 <= i < |v| ==> v[i] == k
    ensures SumOf(v) == |v| as real * k
  {
    if |v| > 0 {
      ConstantSum(v[..|v| - 1], k);
      assert |v| as real * k == (|v| - 1) as real * k + k;
    }
  }

  /** A stream that fills every minute alike never fires. */
  lemma ConstantRateNeverFires(buckets: seq<real>, k: real, threshold: real, sqrt: real -> real)
    requires |buckets| == 60 && threshold >= 0.0 && IsSqrt(sqrt)
    requires forall i :: 0 <= i < 60 ==> buckets[i] == k
    ensures !Fires(buckets, threshold, sqrt)
  {
    FiresWithoutRoot(buckets, threshold, sqrt);
    ConstantSum(buckets[1..], k);
  }

  // ----- conservation of the bucket counts

  function SumMinutes(now: int, times: seq<int>, n: nat): nat {
    if n == 0 then 0 else SumMinutes(now, times, n - 1) + InMinute(now, times, n - 1)
  }

  lemma {:induction false} SumMinutesStep(now: int, times: seq<int>, t: int, n: nat)
    ensures SumMinutes(now, times + [t], n) ==
            SumMinutes(now, times, n) + if 0 <= WholeMinutes(now - t) < n then 1 else 0
  {
    if n > 0 {
      SumMinutesStep(now, times, t, n - 1);
      assert (times + [t])[..|times|] == times;
    }
  }

  lemma {:induction false} MinutesPartition(now: int, times: seq<int>)
    ensures SumMinutes(now, times, 60) == CountCounted(now, times)
  {
    if |times| == 0 {
      MinutesEmpty(now, 60);
      assert times == [];
    } else {
      var front, t := times[..|times| - 1], times[|times| - 1];
      assert times == front + [t];
      MinutesPartition(now, front);
      SumMinutesStep(now, front, t, 60);
    }
  }

  lemma {:induction false} MinutesEmpty(now: int, n: nat)
    ensures SumMinutes(now, [], n) == 0
  {
    if n > 0 { MinutesEmpty(now, n - 1); }
  }

  lemma {:induction false} BucketSum(now: int, times: seq<int>, n: nat)
    requires n <= 60
    ensures SumOf(Buckets(now, times)[..n]) == SumMinutes(now, times, n) as real
  {
    if n > 0 {
      BucketSum(now, times, n - 1);
      assert Buckets(now, times)[..n][..n - 1] == Buckets(now, times)[..n - 1];
    }
  }

  /** The buckets together hold exactly the entries of countable age. */
  lemma BucketsConserve(now: int, times: seq<int>)
    ensures SumOf(Buckets(now, times)) == CountCounted(now, times) as real
  {
    BucketSum(now, times, 60);
    assert Buckets(now, times)[..60] == Buckets(now, times);
    MinutesPartition(now, times);
  }
}
