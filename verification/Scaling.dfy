/** The autoscaler's decision as a function of the worker count and the queue. */
module Scaling {

  /** Counts and thresholds; configuration only ever sets positive factors. */
  datatype Config = Config(min: int, max: int, up: int, down: int, factor: real, cooldown: int, autoscale: bool)

  function Ceiling(x: real): int {
    if x.Floor as real == x then x.Floor else x.Floor + 1
  }

  /** scaleWorkers: the target clamped, lower bound first, and scaleDown's guard. */
  function NewCount(c: Config, active: int, target: int): int {
    var low := if target < c.min then c.min else target;
    var t := if low > c.max then c.max else low;
    if t < active && active <= c.min then active else t
  }

  function Grown(active: int, factor: real, boost: real): int {
    Ceiling(active as real * factor * boost)
  }

  function Needed(c: Config, active: int, queue: int): int {
    var raw := if queue > c.up * 5 then c.max
               else if queue > c.up * 3 then Grown(active, c.factor, 1.5)
               else Grown(active, c.factor, 1.0);
    var capped := if raw > c.max then c.max else raw;
    if capped <= active then active + 1 else capped
  }

  function Reduced(c: Config, active: int): int
    requires c.factor > 0.0
  {
    var raw := (active as real / c.factor).Floor;
    if raw < c.min then c.min else raw
  }

  /** evaluateScaling. */
  function Decide(c: Config, active: int, queue: int): int
    requires c.factor > 0.0
  {
    if queue > c.up && active < c.max then NewCount(c, active, Needed(c, active, queue))
    else if queue < c.down && active > c.min && Reduced(c, active) < active then NewCount(c, active, Reduced(c, active))
    else active
  }

  ghost predicate Sensible(c: Config) {
    1 <= c.min <= c.max && c.factor > 0.0
  }

  ghost predicate Reaches(n: int, wanted: real) { n as real >= wanted }

  ghost predicate Lifted(n: int, factor: real, active: int) { n as real * factor > active as real }

  /** The least number of workers from `low` on that reaches the wanted one, or the
      maximum. */
  ghost predicate LeastReaching(n: int, low: int, max: int, wanted: real) {
    && low <= n <= max && (n == max || Reaches(n, wanted))
    && forall m: int :: low <= m < n ==> !Reaches(m, wanted)
  }

  /** The most workers that, grown again, are no more than now, or the minimum. */
  ghost predicate MostWithin(n: int, min: int, active: int, factor: real) {
    && min <= n <= active && (n == min || !Lifted(n, factor, active))
    && forall m: int :: n < m <= active ==> Lifted(m, factor, active)
  }

  lemma QuotientBound(m: int, a: real, f: real)
    requires f > 0.0
    ensures m as real * f <= a <==> m <= (a / f).Floor
  {
    var q := a / f;
    assert q * f == a;
    if m as real <= q {
      ProductOrder(m as real, q, f);
    } else {
      ProductOrderStrict(q, m as real, f);
    }
  }

  lemma ProductOrder(x: real, y: real, f: real)
    requires x <= y && f > 0.0
    ensures x * f <= y * f
  {
  }

  lemma ProductOrderStrict(x: real, y: real, f: real)
    requires x < y && f > 0.0
    ensures x * f < y * f
  {
  }

  /** What one evaluation decides: under load the fewest workers that make the
      growth, half as much again above three times the threshold, everything above
      five times; idle the most that the growth would not lift past now; otherwise
      no change. */
  lemma DecideMeans(c: Config, active: int, queue: int, boost: real)
    requires Sensible(c) && 0 <= active <= c.max && boost == if queue > 3 * c.up then 1.5 else 1.0
    ensures var n := Decide(c, active, queue);
            if queue > c.up && active < c.max then
              if queue > 5 * c.up then n == c.max
              else LeastReaching(n, if active < c.min then c.min else active + 1, c.max, active as real * c.factor * boost)
            else if queue < c.down && active > c.min then MostWithin(n, c.min, active, c.factor)
            else n == active
  {
    hide *;
    DecideSplits(c, active, queue);
    if queue > c.up && active < c.max {
      if queue <= 5 * c.up { LoadMeans(c, active, queue, boost); }
    } else if queue < c.down && active > c.min {
      IdleMeans(c, active);
    }
  }

  /** The three branches, with the worker counts not yet worked out. */
  lemma DecideSplits(c: Config, active: int, queue: int)
    requires Sensible(c) && 0 <= active <= c.max
    ensures var n := Decide(c, active, queue);
            if queue > c.up && active < c.max then
              if queue > 5 * c.up then n == c.max else n == NewCount(c, active, Needed(c, active, queue))
            else if queue < c.down && active > c.min then
              n == if Reduced(c, active) < active then Reduced(c, active) else active
            else n == active
  {
  }

  lemma CeilingReaches(m: int, x: real)
    ensures Reaches(m, x) <==> m >= Ceiling(x)
  {
  }

  lemma NeededIs(c: Config, active: int, queue: int, boost: real)
    requires c.up < queue <= 5 * c.up && boost == if queue > 3 * c.up then 1.5 else 1.0
    ensures var raw := Grown(active, c.factor, boost);
            var capped := if raw > c.max then c.max else raw;
            Needed(c, active, queue) == if capped <= active then active + 1 else capped
  {
    hide Grown;
  }

  lemma GrownIs(active: int, factor: real, boost: real, wanted: real)
    requires wanted == active as real * factor * boost
    ensures Grown(active, factor, boost) == Ceiling(wanted)
  {
    hide Ceiling;
  }

  /** Rounded up, capped, at least one more, and clamped. */
  lemma CappedIsLeast(c: Config, active: int, wanted: real, needed: int)
    requires Sensible(c) && 0 <= active < c.max
    requires var capped := if Ceiling(wanted) > c.max then c.max else Ceiling(wanted);
             needed == if capped <= active then active + 1 else capped
    ensures LeastReaching(NewCount(c, active, needed), if active < c.min then c.min else active + 1, c.max, wanted)
  {
    hide Ceiling, Reaches;
    forall m: int ensures Reaches(m, wanted) <==> m >= Ceiling(wanted) { CeilingReaches(m, wanted); }
  }

  lemma LoadMeans(c: Config, active: int, queue: int, boost: real)
    requires Sensible(c) && 0 <= active < c.max && c.up < queue <= 5 * c.up
    requires boost == if queue > 3 * c.up then 1.5 else 1.0
    ensures LeastReaching(NewCount(c, active, Needed(c, active, queue)), if active < c.min then c.min else active + 1, c.max,
                          active as real * c.factor * boost)
  {
    hide *;
    NeededIs(c, active, queue, boost);
    var wanted := active as real * c.factor * boost;
    GrownIs(active, c.factor, boost, wanted);
    CappedIsLeast(c, active, wanted, Needed(c, active, queue));
  }

  lemma IdleMeans(c: Config, active: int)
    requires Sensible(c) && c.min < active <= c.max
    ensures MostWithin(if Reduced(c, active) < active then Reduced(c, active) else active, c.min, active, c.factor)
  {
    forall m: int ensures Lifted(m, c.factor, active) <==> m > (active as real / c.factor).Floor {
      QuotientBound(m, active as real, c.factor);
    }
    hide Lifted;
  }

  lemma CeilingMonotone(x: real, y: real)
    requires x <= y
    ensures Ceiling(x) <= Ceiling(y)
  {
  }

  lemma NeededMonotone(c: Config, active: int, q: int, q': int)
    requires Sensible(c) && 0 <= active < c.max && c.up < q <= q'
    ensures active < Needed(c, active, q) <= Needed(c, active, q') <= c.max
  {
    var a := active as real * c.factor;
    assert a >= 0.0;
    CeilingMonotone(a * 1.0, a * 1.5);
  }

  /** For a fixed number of workers, a longer queue never asks for fewer. */
  lemma DecideMonotone(c: Config, active: int, q: int, q': int)
    requires Sensible(c) && active >= 0 && q <= q'
    ensures Decide(c, active, q) <= Decide(c, active, q')
  {
    hide Needed, Reduced;
    if active < c.max && q' > c.up {
      NeededMonotone(c, active, if q > c.up then q else q', q');
    }
  }

  /** One evaluation under load adds a worker until the maximum, and above five
      times the threshold goes to the maximum at once. */
  lemma LoadAddsWorkers(c: Config, active: int, queue: int)
    requires Sensible(c) && c.min <= active <= c.max && queue > c.up
    ensures active < c.max ==> active < Decide(c, active, queue) <= c.max
    ensures active == c.max && c.down <= c.up ==> Decide(c, active, queue) == c.max
    ensures active < c.max && queue > c.up * 5 ==> Decide(c, active, queue) == c.max
  {
    hide Reduced;
    if active < c.max { NeededMonotone(c, active, queue, queue); }
  }

  lemma ReducedLess(c: Config, active: int)
    requires Sensible(c) && c.factor > 1.0 && active > c.min
    ensures c.min <= Reduced(c, active) < active
  {
    var a := active as real;
    assert a / c.factor < a by { QuotientLess(a, c.factor); }
  }

  lemma QuotientLess(a: real, f: real)
    requires a > 0.0 && f > 1.0
    ensures a / f < a
  {
    var r := a / f;
    assert r * f == a;
    assert r > 0.0;
    assert r * f > r;
  }

  lemma IdleRemovesWorkers(c: Config, active: int, queue: int)
    requires Sensible(c) && c.factor > 1.0 && c.min <= active <= c.max && queue < c.down <= c.up
    ensures active > c.min ==> c.min <= Decide(c, active, queue) < active
    ensures active == c.min ==> Decide(c, active, queue) == active
  {
    hide Reduced, Needed;
    if active > c.min { ReducedLess(c, active); }
  }

  /** Evaluations one after another. */
  function Iterate(c: Config, active: int, queues: seq<int>): int
    requires c.factor > 0.0
  {
    if |queues| == 0 then active
    else Decide(c, Iterate(c, active, queues[..|queues| - 1]), queues[|queues| - 1])
  }

  /** Sustained load reaches the maximum, one worker per evaluation at least. */
  lemma {:induction false} SustainedLoad(c: Config, active: int, queues: seq<int>)
    requires Sensible(c) && c.min <= active <= c.max && c.down <= c.up
    requires forall i :: 0 <= i < |queues| ==> queues[i] > c.up
    ensures c.min <= Iterate(c, active, queues) <= c.max
    ensures Iterate(c, active, queues) >= if active + |queues| < c.max then active + |queues| else c.max
  {
    if |queues| > 0 {
      SustainedLoad(c, active, queues[..|queues| - 1]);
      hide Decide;
      LoadAddsWorkers(c, Iterate(c, active, queues[..|queues| - 1]), queues[|queues| - 1]);
    }
  }

  /** A sustained idle queue reaches the minimum. */
  lemma {:induction false} SustainedIdle(c: Config, active: int, queues: seq<int>)
    requires Sensible(c) && c.factor > 1.0 && c.min <= active <= c.max && c.down <= c.up
    requires forall i :: 0 <= i < |queues| ==> queues[i] < c.down
    ensures c.min <= Iterate(c, active, queues) <= c.max
    ensures Iterate(c, active, queues) <= if active - |queues| > c.min then active - |queues| else c.min
  {
    if |queues| > 0 {
      SustainedIdle(c, active, queues[..|queues| - 1]);
      hide Decide;
      IdleRemovesWorkers(c, Iterate(c, active, queues[..|queues| - 1]), queues[|queues| - 1]);
    }
  }
}
