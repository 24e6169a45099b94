/** When the largest hourly p95, which a day row stores, is the p95 of the day. */
module DailyP95 {
  import opened Percentile
  import opened Sorting
  import Tiers

  /** A day's response times, hour by hour; only hours with requests have a row. */
  ghost predicate Hours(hours: seq<seq<int>>) {
    |hours| > 0 && forall i :: 0 <= i < |hours| ==> |hours[i]| > 0
  }

  function Largest(hours: seq<seq<int>>): real
    requires Hours(hours)
  {
    if |hours| == 1 then P95(hours[0])
    else
      var (m, last) := (Largest(hours[..|hours| - 1]), P95(hours[|hours| - 1]));
      if m < last then last else m
  }

  function All(hours: seq<seq<int>>): (times: seq<int>)
    ensures Hours(hours) ==> |times| > 0
  {
    if |hours| == 0 then [] else All(hours[..|hours| - 1]) + hours[|hours| - 1]
  }

  /** What the day row stores is what percentile_cont gives for the whole day. */
  ghost predicate StoredIsExact(hours: seq<seq<int>>)
    requires Hours(hours)
  {
    Largest(hours) == P95(All(hours))
  }

  /** How many requests each hour has. */
  ghost predicate Shape(hours: seq<seq<int>>, sizes: seq<nat>) {
    |hours| == |sizes| && forall i :: 0 <= i < |sizes| ==> |hours[i]| == sizes[i]
  }

  /** The p95 column of a day row made from hour rows that store theirs. */
  lemma {:induction false} StoresLargest(rows: seq<Tiers.Summary>, hours: seq<seq<int>>)
    requires Hours(hours) && |rows| == |hours|
    requires forall i :: 0 <= i < |rows| ==> rows[i].p95Ms == P95(hours[i])
    ensures Tiers.MaxP95(rows) == Largest(hours)
  {
    if |rows| > 1 {
      hide P95;
      StoresLargest(rows[..|rows| - 1], hours[..|hours| - 1]);
    }
  }

  // ----- samples of two values

  /** m zeros and j hundreds. */
  function Two(m: nat, j: nat): seq<int> { seq(m + j, i => if i < m then 0 else 100) }

  function Clamp(x: int): int { if x < 0 then 0 else if x > 100 then 100 else x }

  lemma TwoAscending(m: nat, j: nat)
    ensures Ascending(Two(m, j)) == Two(m, j)
  {
    AscendingPermutes(Two(m, j));
    AscendingSorted(Two(m, j));
    hide Ascending;
    SortedUnique(Ascending(Two(m, j)), Two(m, j));
  }

  lemma Ranks(n: nat, m: nat)
    requires 0 < n
    ensures var (lo, part) := (95 * (n - 1) / 100, 95 * (n - 1) % 100);
            && 0 <= lo < n && 0 <= part < 100 && (part != 0 ==> lo + 1 < n)
            && Clamp(95 * (n - 1) - 100 * (m - 1)) == if m <= lo then 100 else if m == lo + 1 then part else 0
  {
  }

  lemma BlendEnds(part: int, f: real)
    requires f == part as real / 100.0
    ensures Blend(0.0, 100.0, f) == part as real && Blend(0.0, 0.0, f) == 0.0 && Blend(100.0, 100.0, f) == 100.0
  {
  }

  lemma TwoRank(m: nat, j: nat)
    requires m + j > 0
    ensures AtRank(Two(m, j)) == Clamp(95 * (m + j - 1) - 100 * (m - 1)) as real
  {
    var (n, o) := (m + j, Two(m, j));
    Ranks(n, m);
    var (lo, part) := (95 * (n - 1) / 100, 95 * (n - 1) % 100);
    BlendEnds(part, part as real / 100.0);
    assert o[lo] == if lo < m then 0 else 100;
    assert part != 0 ==> o[lo + 1] == if lo + 1 < m then 0 else 100;
    hide Two, Clamp, Blend;
  }

  /** The p95 of such a sample, whatever its order. */
  lemma TwoP95(s: seq<int>, m: nat, j: nat)
    requires m + j > 0 && multiset(s) == multiset(Two(m, j))
    ensures |s| == m + j && P95(s) == Clamp(100 * j - 5 * (m + j - 1)) as real
  {
    AscendingPermutes(s);
    assert |Two(m, j)| == m + j && |multiset(s)| == |s|;
    assert P95(s) == AtRank(Ascending(s));
    assert 95 * (m + j - 1) - 100 * (m - 1) == 100 * j - 5 * (m + j - 1);
    hide *;
    AscendingOfPermutation(s, Two(m, j));
    TwoAscending(m, j);
    TwoRank(m, j);
  }

  // ----- a day whose largest times fall into its first hour

  /** The hours' sizes, all times 0 but for the first hour's j largest. */
  function TopHours(sizes: seq<nat>, j: nat): seq<seq<int>>
    requires |sizes| > 0 && j <= sizes[0]
  {
    seq(|sizes|, i requires 0 <= i < |sizes| => if i == 0 then Two(sizes[0] - j, j) else Two(sizes[i], 0))
  }

  function Total(sizes: seq<nat>): nat {
    if |sizes| == 0 then 0 else Total(sizes[..|sizes| - 1]) + sizes[|sizes| - 1]
  }

  lemma TwoJoins(n: nat, m: nat, j: nat)
    ensures Two(n, 0) + Two(m, j) == Two(n + m, j)
  {
  }

  lemma AllLast(front: seq<seq<int>>, last: seq<int>)
    ensures All(front + [last]) == All(front) + last
    ensures All([last]) == last
  {
    assert (front + [last])[..|front|] == front;
    assert [last][..0] == [] && [] + last == last;
  }

  lemma TopHoursLast(sizes: seq<nat>, j: nat)
    requires |sizes| > 0 && j <= sizes[0]
    ensures |sizes| == 1 ==> TopHours(sizes, j) == [Two(sizes[0] - j, j)]
    ensures |sizes| > 1 ==>
              TopHours(sizes, j) == TopHours(sizes[..|sizes| - 1], j) + [Two(sizes[|sizes| - 1], 0)]
  {
    hide Two;
  }

  lemma TwoBags(n: nat, m: nat, j: nat)
    ensures multiset(Two(m, j)) + multiset(Two(n, 0)) == multiset(Two(n + m, j))
  {
    TwoJoins(n, m, j);
    hide Two;
  }

  lemma TotalLast(sizes: seq<nat>)
    requires |sizes| > 0
    ensures |sizes| == 1 ==> Total(sizes) == sizes[0]
    ensures |sizes| > 1 ==> Total(sizes) == Total(sizes[..|sizes| - 1]) + sizes[|sizes| - 1]
  {
    if |sizes| == 1 { assert sizes[..0] == []; }
  }

  lemma {:induction false} TopHoursAll(sizes: seq<nat>, j: nat)
    requires |sizes| > 0 && j <= sizes[0]
    ensures Total(sizes) >= sizes[0]
    ensures multiset(All(TopHours(sizes, j))) == multiset(Two(Total(sizes) - j, j))
  {
    hide *;
    TopHoursLast(sizes, j);
    TotalLast(sizes);
    if |sizes| == 1 {
      AllLast([], Two(sizes[0] - j, j));
    } else {
      var (front, last) := (sizes[..|sizes| - 1], sizes[|sizes| - 1]);
      TopHoursAll(front, j);
      AllLast(TopHours(front, j), Two(last, 0));
      TwoBags(last, Total(front) - j, j);
    }
  }

  lemma {:induction false} FirstBelowLargest(hours: seq<seq<int>>)
    requires Hours(hours)
    ensures P95(hours[0]) <= Largest(hours)
  {
    if |hours| > 1 {
      hide P95;
      FirstBelowLargest(hours[..|hours| - 1]);
    }
  }

  lemma {:induction false} TotalAbove(sizes: seq<nat>)
    requires |sizes| > 1 && forall i :: 0 <= i < |sizes| ==> sizes[i] > 0
    ensures Total(sizes) > sizes[0]
  {
    if |sizes| > 2 {
      TotalAbove(sizes[..|sizes| - 1]);
    } else {
      assert sizes[..1][..0] == [];
      assert Total(sizes[..1]) == sizes[0];
    }
  }

  /** How many of the first hour's times to raise for its p95 to be above 0. */
  function Raised(n: nat): (j: nat)
    requires n > 0
    ensures j <= n && 0 < 100 * j - 5 * (n - 1) <= 100
  {
    5 * (n - 1) / 100 + 1
  }

  lemma ClampDrops(x: int, y: int)
    requires y < x && 0 < x <= 100
    ensures Clamp(y) as real < Clamp(x) as real
  {
  }

  lemma TopHoursShape(sizes: seq<nat>, j: nat)
    requires |sizes| > 0 && j <= sizes[0] && forall i :: 0 <= i < |sizes| ==> sizes[i] > 0
    ensures var hours := TopHours(sizes, j);
            |hours| > 0 && Shape(hours, sizes) && Hours(hours) && hours[0] == Two(sizes[0] - j, j)
  {
  }

  lemma TopHoursExceed(hours: seq<seq<int>>, n: nat, j: nat, total: nat)
    requires |hours| > 0 && Hours(hours) && 0 < n < total && j <= n && 0 < 100 * j - 5 * (n - 1) <= 100
    requires hours[0] == Two(n - j, j) && multiset(All(hours)) == multiset(Two(total - j, j))
    ensures Largest(hours) > P95(All(hours))
  {
    hide *;
    FirstBelowLargest(hours);
    TwoP95(hours[0], n - j, j);
    TwoP95(All(hours), total - j, j);
    ClampDrops(100 * j - 5 * (n - 1), 100 * j - 5 * (total - 1));
  }

  /** With two hours or more, of any sizes, the stored p95 can exceed the day's. */
  lemma LargestExceeds(sizes: seq<nat>) returns (hours: seq<seq<int>>)
    requires |sizes| > 1 && forall i :: 0 <= i < |sizes| ==> sizes[i] > 0
    ensures Shape(hours, sizes) && Hours(hours) && Largest(hours) > P95(All(hours))
  {
    hide *;
    var j := Raised(sizes[0]);
    hours := TopHours(sizes, j);
    TopHoursShape(sizes, j);
    TotalAbove(sizes);
    TopHoursAll(sizes, j);
    TopHoursExceed(hours, sizes[0], j, Total(sizes));
  }

  lemma OneHourIsExact(hours: seq<seq<int>>)
    requires Hours(hours) && |hours| == 1
    ensures StoredIsExact(hours)
  {
    assert All(hours[..0]) == [] && [] + hours[0] == hours[0];
    hide P95;
  }

  /** The exact condition on a day: its row stores the p95 of its requests, whatever
      their response times, exactly when they all fall into one hour. */
  lemma ExactIffOneHour(sizes: seq<nat>)
    requires |sizes| > 0 && forall i :: 0 <= i < |sizes| ==> sizes[i] > 0
    ensures (forall hours :: Shape(hours, sizes) ==> Hours(hours) && StoredIsExact(hours)) <==> |sizes| == 1
  {
    hide StoredIsExact, P95, Largest, All;
    if |sizes| == 1 {
      forall hours | Shape(hours, sizes) ensures Hours(hours) && StoredIsExact(hours) { OneHourIsExact(hours); }
    } else {
      var hours := LargestExceeds(sizes);
      ExceedsMeans(hours);
    }
  }

  lemma ExceedsMeans(hours: seq<seq<int>>)
    requires Hours(hours) && Largest(hours) > P95(All(hours))
    ensures !StoredIsExact(hours)
  {
  }
}
