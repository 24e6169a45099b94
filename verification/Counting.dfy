/** Selections and sums told by positions: which rows are meant, how many they
    are, and what a plain sum over them is. */
module Counting {
  import opened Rows

  /** `idx` lists the positions of a set in ascending order. */
  ghost predicate Lists(idx: seq<int>, chosen: set<int>) {
    && (forall k, l :: 0 <= k < l < |idx| ==> idx[k] < idx[l])
    && (forall k :: 0 <= k < |idx| ==> idx[k] in chosen)
    && (forall i :: i in chosen ==> i in idx)
  }

  /** `g` holds the rows at the chosen positions, in order. */
  ghost predicate Picks<T(!new)>(s: seq<T>, chosen: set<int>, g: seq<T>) {
    exists idx: seq<int> :: Lists(idx, chosen) && |idx| == |g| &&
                            forall k :: 0 <= k < |g| ==> 0 <= idx[k] < |s| && g[k] == s[idx[k]]
  }

  ghost function Chosen<T(!new)>(p: T -> bool, s: seq<T>): set<int> {
    set i | 0 <= i < |s| && p(s[i])
  }

  function SumInts(s: seq<int>): int {
    if |s| == 0 then 0 else SumInts(s[..|s| - 1]) + s[|s| - 1]
  }

  function SumReals(s: seq<real>): real {
    if |s| == 0 then 0.0 else SumReals(s[..|s| - 1]) + s[|s| - 1]
  }

  lemma ChosenLast<T(!new)>(p: T -> bool, t: seq<T>, e: T)
    ensures Chosen(p, t + [e]) == Chosen(p, t) + if p(e) then {|t|} else {}
    ensures |Chosen(p, t + [e])| == |Chosen(p, t)| + if p(e) then 1 else 0
  {
    assert |t| !in Chosen(p, t);
  }

  lemma ListsExtend(idx: seq<int>, chosen: set<int>, n: int)
    requires Lists(idx, chosen) && forall i :: i in chosen ==> i < n
    ensures Lists(idx + [n], chosen + {n})
  {
    var all := idx + [n];
    assert all[|idx|] == n;
    forall i | i in chosen ensures i in all {
      var k :| 0 <= k < |idx| && idx[k] == i;
      assert all[k] == i;
    }
  }

  lemma ChosenNothing<T(!new)>(p: T -> bool, s: seq<T>)
    requires |s| == 0
    ensures Chosen(p, s) == {} && |Chosen(p, s)| == 0
  {
  }

  /** `g` holds the rows at the listed positions. */
  ghost predicate At<T(!new)>(idx: seq<int>, s: seq<T>, g: seq<T>) {
    |idx| == |g| && forall k :: 0 <= k < |idx| ==> 0 <= idx[k] < |s| && g[k] == s[idx[k]]
  }

  lemma AtMore<T(!new)>(idx: seq<int>, t: seq<T>, g: seq<T>, e: T)
    requires At(idx, t, g)
    ensures At(idx, t + [e], g) && At(idx + [|t|], t + [e], g + [e])
  {
  }

  lemma ChosenBelow<T(!new)>(p: T -> bool, s: seq<T>)
    ensures forall i :: i in Chosen(p, s) ==> i < |s|
  {
  }

  /** What WHERE selects: the rows at the chosen positions, in order. */
  lemma {:induction false} FilterLists<T(!new)>(p: T -> bool, s: seq<T>) returns (idx: seq<int>)
    ensures Lists(idx, Chosen(p, s)) && At(idx, s, Filter(p, s))
  {
    if |s| == 0 {
      idx := [];
    } else {
      var t, e := s[..|s| - 1], s[|s| - 1];
      assert s == t + [e];
      var front := FilterLists(p, t);
      hide *;
      FilterLast(p, t, e);
      ChosenLast(p, t, e);
      ChosenBelow(p, t);
      AtMore(front, t, Filter(p, t), e);
      if p(e) {
        ListsExtend(front, Chosen(p, t), |t|);
        idx := front + [|t|];
      } else {
        assert Chosen(p, t) + {} == Chosen(p, t);
        idx := front;
      }
    }
  }

  lemma {:induction false} FilterNumber<T(!new)>(p: T -> bool, s: seq<T>)
    ensures |Filter(p, s)| == |Chosen(p, s)|
  {
    if |s| == 0 {
      assert Chosen(p, s) == {};
    } else {
      var t, e := s[..|s| - 1], s[|s| - 1];
      assert s == t + [e];
      FilterNumber(p, t);
      FilterLast(p, t, e);
      ChosenLast(p, t, e);
    }
  }

  /** A selection from a selection. */
  lemma {:induction false} FilterTwice<T(!new)>(p: T -> bool, q: T -> bool, both: T -> bool, s: seq<T>)
    requires forall x :: x in s ==> both(x) == (p(x) && q(x))
    ensures Filter(p, Filter(q, s)) == Filter(both, s)
  {
    if |s| > 0 {
      var t, e := s[..|s| - 1], s[|s| - 1];
      assert s == t + [e];
      FilterTwice(p, q, both, t);
      FilterLast(q, t, e);
      FilterLast(both, t, e);
      if q(e) { FilterLast(p, Filter(q, t), e); }
    }
  }

  lemma {:induction false} FilterCongruent<T(!new)>(p: T -> bool, q: T -> bool, s: seq<T>)
    requires forall x :: x in s ==> p(x) == q(x)
    ensures Filter(p, s) == Filter(q, s)
  {
    if |s| > 0 {
      var t, e := s[..|s| - 1], s[|s| - 1];
      assert s == t + [e];
      FilterCongruent(p, q, t);
      FilterLast(p, t, e);
      FilterLast(q, t, e);
    }
  }

  lemma FilterPicks<T(!new)>(p: T -> bool, s: seq<T>)
    ensures Picks(s, Chosen(p, s), Filter(p, s))
  {
    var idx := FilterLists(p, s);
    hide Filter, Chosen, Lists;
  }

  ghost function Both<T(!new)>(p: T -> bool, q: T -> bool, s: seq<T>): set<int> {
    set i | 0 <= i < |s| && p(s[i]) && q(s[i])
  }

  /** How many of a selection meet a further condition. */
  lemma NumberWithin<T(!new)>(p: T -> bool, q: T -> bool, s: seq<T>)
    ensures |Chosen(q, Filter(p, s))| == |Both(p, q, s)|
  {
    var both := (x: T) => p(x) && q(x);
    FilterNumber(q, Filter(p, s));
    FilterTwice(q, p, both, s);
    FilterNumber(both, s);
    assert Chosen(both, s) == Both(p, q, s);
  }
}
