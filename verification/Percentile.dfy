/** percentile_cont(0.95) over a non-empty bag of integer response times:
    linear interpolation at rank 0.95 * (n - 1) of the ascending order. */
module Percentile {

  import opened Sorting
  import Reals

  /** The value at rank 0.95 * (n - 1) of an ascending sample. */
  function AtRank(o: seq<int>): real
    requires |o| > 0
  {
    var lo, part := 95 * (|o| - 1) / 100, 95 * (|o| - 1) % 100;
    if part == 0 then o[lo] as real
    else Blend(o[lo] as real, o[lo + 1] as real, part as real / 100.0)
  }

  function P95(s: seq<int>): real
    requires |s| > 0
  {
    AscendingPermutes(s);
    AtRank(Ascending(s))
  }

  function Blend(a: real, b: real, f: real): real {
    a + f * (b - a)
  }

  /** Interpolation never leaves the range of the sample. */
  lemma P95Between(s: seq<int>, lo: real, hi: real)
    requires |s| > 0
    requires forall x :: x in s ==> lo <= x as real <= hi
    ensures lo <= P95(s) <= hi
  {
    AscendingPermutes(s);
    AscendingSorted(s);
    var o := Ascending(s);
    forall k | 0 <= k < |o| ensures lo <= o[k] as real <= hi {
      assert o[k] in multiset(o);
      assert o[k] in multiset(s);
      assert o[k] in s;
    }
    var i, part := 95 * (|s| - 1) / 100, 95 * (|s| - 1) % 100;
    if part != 0 { BlendBetween(o[i] as real, o[i + 1] as real, part as real / 100.0); }
  }

  lemma BlendBetween(a: real, b: real, f: real)
    requires a <= b && 0.0 <= f <= 1.0
    ensures a <= Blend(a, b, f) <= b
  {
    Reals.NonNegativeProduct(f, b - a);
    Reals.NonNegativeProduct(1.0 - f, b - a);
  }

  /** In ascending order, the value 95 hundredths of the way from the first to the
      last, between two samples in proportion. */
  lemma P95Interpolates(s: seq<int>) returns (o: seq<int>)
    requires |s| > 0
    ensures |o| == |s| && multiset(o) == multiset(s) && forall i, j :: 0 <= i < j < |o| ==> o[i] <= o[j]
    ensures var (k, part) := (95 * (|s| - 1) / 100, 95 * (|s| - 1) % 100);
            if part == 0 then P95(s) == o[k] as real
            else 100.0 * P95(s) == (100 - part) as real * o[k] as real + part as real * o[k + 1] as real
  {
    hide *;
    o := Ascending(s);
    AscendingPermutes(s);
    AscendingIs(s);
    RankMeans(o);
    P95Is(s);
  }

  lemma P95Is(s: seq<int>)
    requires |s| > 0
    ensures |Ascending(s)| > 0 && P95(s) == AtRank(Ascending(s))
  {
    AscendingPermutes(s);
  }

  lemma AscendingIs(s: seq<int>)
    ensures var o := Ascending(s); forall i, j :: 0 <= i < j < |o| ==> o[i] <= o[j]
  {
    AscendingSorted(s);
    hide Ascending;
  }

  lemma RankMeans(o: seq<int>)
    requires |o| > 0
    ensures var (k, part) := (95 * (|o| - 1) / 100, 95 * (|o| - 1) % 100);
            if part == 0 then AtRank(o) == o[k] as real
            else 100.0 * AtRank(o) == (100 - part) as real * o[k] as real + part as real * o[k + 1] as real
  {
    var k, part := 95 * (|o| - 1) / 100, 95 * (|o| - 1) % 100;
    if part != 0 { BlendHundredths(o[k] as real, o[k + 1] as real, part as real); }
    hide Blend;
  }

  lemma BlendHundredths(a: real, b: real, part: real)
    ensures 100.0 * Blend(a, b, part / 100.0) == (100.0 - part) * a + part * b
  {
  }

  /** The largest hourly p95 is not the p95 of the day: two hours of {0, 100}
      give 95 each, the four samples together give 100. */
  lemma MaxOfHoursIsNotTheDay()
    ensures P95([0, 100]) == 95.0
    ensures P95([0, 100] + [0, 100]) == 100.0
  {
    assert Ascending([0, 100]) == [0, 100];
    assert [0, 100] + [0, 100] == [0, 100, 0, 100];
    assert [0, 100, 0, 100][1..] == [100, 0, 100];
    assert [100, 0, 100][1..] == [0, 100];
    assert Ascending([100, 0, 100]) == [0, 100, 100];
    assert Ascending([0, 100, 0, 100]) == [0, 0, 100, 100];
  }

  /** Nor is it a bound the other way: hours of {100} and {0, 0} give 100 and 0, the
      three samples together give 90. */
  lemma MaxOfHoursExceedsTheDay()
    ensures P95([100]) == 100.0 && P95([0, 0]) == 0.0
    ensures P95([100] + [0, 0]) == 90.0
  {
    assert [100] + [0, 0] == [100, 0, 0] && [100, 0, 0][1..] == [0, 0];
    assert Ascending([100]) == [100] && Ascending([0, 0]) == [0, 0];
    assert Ascending([100, 0, 0]) == [0, 0, 100];
  }
}
