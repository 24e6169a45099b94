/** Relational building blocks over sequences of rows: selection, grouping by a
    key, and sums of row weights.  SQL's WHERE, GROUP BY, SUM and COUNT are
    read through these definitions. */
module Rows {

  /** The additive measures of a bag of requests: how many, how many in each
      status class, and the summed response time. */
  datatype Totals = Totals(events: int, s2: int, s3: int, s4: int, s5: int, ms: real)

  const ZERO := Totals(0, 0, 0, 0, 0, 0.0)

  function Plus(a: Totals, b: Totals): Totals {
    Totals(a.events + b.events, a.s2 + b.s2, a.s3 + b.s3, a.s4 + b.s4, a.s5 + b.s5, a.ms + b.ms)
  }

  function Sum<T>(w: T -> Totals, s: seq<T>): Totals {
    if |s| == 0 then ZERO else Plus(Sum(w, s[..|s| - 1]), w(s[|s| - 1]))
  }

  function Filter<T>(p: T -> bool, s: seq<T>): seq<T> {
    if |s| == 0 then []
    else Filter(p, s[..|s| - 1]) + (if p(s[|s| - 1]) then [s[|s| - 1]] else [])
  }

  function Mapped<T, U>(g: T -> U, s: seq<T>): seq<U> {
    seq(|s|, i requires 0 <= i < |s| => g(s[i]))
  }

  /** The distinct keys of `s`, in order of first occurrence. */
  function Keys<T, K(==)>(k: T -> K, s: seq<T>): seq<K> {
    if |s| == 0 then []
    else
      var ks := Keys(k, s[..|s| - 1]);
      if k(s[|s| - 1]) in ks then ks else ks + [k(s[|s| - 1])]
  }

  function HasKey<T, K(==)>(k: T -> K, key: K): T -> bool {
    x => k(x) == key
  }

  function Group<T, K(==)>(k: T -> K, key: K, s: seq<T>): seq<T> {
    Filter(HasKey(k, key), s)
  }

  /** SELECT mk(...) FROM s GROUP BY k, one output row per key in `ks`. */
  function RowPerKey<T, K(==), R>(k: T -> K, mk: (K, seq<T>) -> R, ks: seq<K>, s: seq<T>): seq<R> {
    if |ks| == 0 then []
    else RowPerKey(k, mk, ks[..|ks| - 1], s) + [mk(ks[|ks| - 1], Group(k, ks[|ks| - 1], s))]
  }

  function GroupBy<T, K(==), R>(k: T -> K, mk: (K, seq<T>) -> R, s: seq<T>): seq<R> {
    RowPerKey(k, mk, Keys(k, s), s)
  }

  ghost predicate Distinct<K>(ks: seq<K>) {
    forall i, j :: 0 <= i < j < |ks| ==> ks[i] != ks[j]
  }

  // ----- selection

  lemma {:induction false} FilterMember<T(!new)>(p: T -> bool, s: seq<T>, x: T)
    ensures x in Filter(p, s) <==> x in s && p(x)
  {
    if |s| > 0 {
      FilterMember(p, s[..|s| - 1], x);
      assert s == s[..|s| - 1] + [s[|s| - 1]];
    }
  }

  lemma FilterMembers<T(!new)>(p: T -> bool, s: seq<T>)
    ensures forall x :: x in Filter(p, s) <==> x in s && p(x)
  {
    forall x ensures x in Filter(p, s) <==> x in s && p(x) { FilterMember(p, s, x); }
  }

  lemma {:induction false} FilterAppend<T(!new)>(p: T -> bool, a: seq<T>, b: seq<T>)
    ensures Filter(p, a + b) == Filter(p, a) + Filter(p, b)
  {
    if |b| == 0 {
      assert a + b == a;
    } else {
      assert (a + b)[..|a + b| - 1] == a + b[..|b| - 1];
      FilterAppend(p, a, b[..|b| - 1]);
    }
  }

  lemma {:induction false} FilterAll<T(!new)>(p: T -> bool, s: seq<T>)
    requires forall x :: x in s ==> p(x)
    ensures Filter(p, s) == s
  {
    if |s| > 0 {
      FilterAll(p, s[..|s| - 1]);
      assert s == s[..|s| - 1] + [s[|s| - 1]];
    }
  }

  lemma {:induction false} FilterNone<T(!new)>(p: T -> bool, s: seq<T>)
    requires forall x :: x in s ==> !p(x)
    ensures Filter(p, s) == []
  {
    if |s| > 0 { FilterNone(p, s[..|s| - 1]); }
  }

  // ----- sums

  lemma {:induction false} SumAppend<T(!new)>(w: T -> Totals, a: seq<T>, b: seq<T>)
    ensures Sum(w, a + b) == Plus(Sum(w, a), Sum(w, b))
  {
    if |b| == 0 {
      assert a + b == a;
    } else {
      assert (a + b)[..|a + b| - 1] == a + b[..|b| - 1];
      SumAppend(w, a, b[..|b| - 1]);
    }
  }

  /** A selection can be moved into the weight. */
  lemma {:induction false} SumFilter<T(!new)>(w: T -> Totals, p: T -> bool, v: T -> Totals, s: seq<T>)
    requires forall x :: x in s ==> v(x) == if p(x) then w(x) else ZERO
    ensures Sum(w, Filter(p, s)) == Sum(v, s)
  {
    if |s| > 0 {
      var t, e := s[..|s| - 1], s[|s| - 1];
      SumFilter(w, p, v, t);
      if p(e) {
        assert Filter(p, s) == Filter(p, t) + [e];
        assert (Filter(p, t) + [e])[..|Filter(p, t)|] == Filter(p, t);
      } else {
        assert Filter(p, s) == Filter(p, t);
      }
    }
  }

  /** Weights that split pointwise split the sum. */
  lemma {:induction false} SumSplit<T(!new)>(w: T -> Totals, u: T -> Totals, v: T -> Totals, s: seq<T>)
    requires forall x :: x in s ==> w(x) == Plus(u(x), v(x))
    ensures Sum(w, s) == Plus(Sum(u, s), Sum(v, s))
  {
    if |s| > 0 { SumSplit(w, u, v, s[..|s| - 1]); }
  }

  lemma {:induction false} FilterLast<T(!new)>(p: T -> bool, t: seq<T>, e: T)
    ensures Filter(p, t + [e]) == if p(e) then Filter(p, t) + [e] else Filter(p, t)
  {
    assert (t + [e])[..|t + [e]| - 1] == t;
  }

  lemma SumLast<T(!new)>(w: T -> Totals, t: seq<T>, e: T)
    ensures Sum(w, t + [e]) == Plus(Sum(w, t), w(e))
  {
    assert (t + [e])[..|t + [e]| - 1] == t;
  }

  lemma FilterSumLast<T(!new)>(w: T -> Totals, p: T -> bool, t: seq<T>, e: T)
    ensures Sum(w, Filter(p, t + [e])) == if p(e) then Plus(Sum(w, Filter(p, t)), w(e)) else Sum(w, Filter(p, t))
  {
    FilterLast(p, t, e);
    SumLast(w, Filter(p, t), e);
  }

  lemma PlusMoves(a: Totals, b: Totals, c: Totals)
    ensures Plus(Plus(a, b), c) == Plus(Plus(a, c), b) == Plus(a, Plus(b, c))
    ensures Plus(b, ZERO) == b == Plus(ZERO, b)
    ensures Plus(a, b) == Plus(b, a)
  {
  }

  lemma {:induction false} SumCongruent<T(!new)>(w: T -> Totals, v: T -> Totals, s: seq<T>)
    requires forall x :: x in s ==> w(x) == v(x)
    ensures Sum(w, s) == Sum(v, s)
  {
    if |s| > 0 { SumCongruent(w, v, s[..|s| - 1]); }
  }

  lemma {:induction false} SumZero<T(!new)>(w: T -> Totals, s: seq<T>)
    requires forall x :: x in s ==> w(x) == ZERO
    ensures Sum(w, s) == ZERO
  {
    if |s| > 0 { SumZero(w, s[..|s| - 1]); }
  }

  lemma MappedLast<T(!new), U(!new)>(g: T -> U, t: seq<T>, e: T)
    ensures Mapped(g, t + [e]) == Mapped(g, t) + [g(e)]
  {
  }

  /** A mapping can be moved into the weight. */
  lemma {:induction false} SumMapped<T(!new), U(!new)>(w: U -> Totals, g: T -> U, v: T -> Totals, s: seq<T>)
    requires forall x :: x in s ==> v(x) == w(g(x))
    ensures Sum(w, Mapped(g, s)) == Sum(v, s)
  {
    if |s| > 0 {
      var t, e := s[..|s| - 1], s[|s| - 1];
      SumMapped(w, g, v, t);
      assert s == t + [e] && Mapped(g, s)[..|s| - 1] == Mapped(g, t);
    }
  }

  // ----- grouping

  lemma {:induction false} KeysProperty<T(!new), K(!new)>(k: T -> K, s: seq<T>)
    ensures Distinct(Keys(k, s))
    ensures forall x :: x in s ==> k(x) in Keys(k, s)
    ensures forall key :: key in Keys(k, s) ==> exists x :: x in s && k(x) == key
  {
    if |s| > 0 {
      var t, e := s[..|s| - 1], s[|s| - 1];
      KeysProperty(k, t);
      assert s == t + [e];
      assert e in s;
      forall key | key in Keys(k, s) ensures exists x :: x in s && k(x) == key {
        if key in Keys(k, t) {
          var x :| x in t && k(x) == key;
          assert x in s;
        }
      }
    }
  }

  /** Every key of a group-by has a non-empty group. */
  lemma GroupNonEmpty<T(!new), K(!new)>(k: T -> K, key: K, s: seq<T>)
    requires key in Keys(k, s)
    ensures |Group(k, key, s)| > 0
    ensures forall x :: x in Group(k, key, s) <==> x in s && k(x) == key
  {
    KeysProperty(k, s);
    var x :| x in s && k(x) == key;
    FilterMembers(HasKey(k, key), s);
    assert x in Group(k, key, s);
  }

  lemma {:induction false} RowPerKeyLength<T(!new), K(!new), R(!new)>(k: T -> K, mk: (K, seq<T>) -> R, ks: seq<K>, s: seq<T>)
    ensures |RowPerKey(k, mk, ks, s)| == |ks|
    ensures forall i :: 0 <= i < |ks| ==> RowPerKey(k, mk, ks, s)[i] == mk(ks[i], Group(k, ks[i], s))
  {
    if |ks| > 0 { RowPerKeyLength(k, mk, ks[..|ks| - 1], s); }
  }

  /** The rows of a group-by are exactly the rows made from its keys. */
  lemma GroupByRow<T(!new), K(!new), R(!new)>(k: T -> K, mk: (K, seq<T>) -> R, s: seq<T>, r: R) returns (key: K)
    requires r in GroupBy(k, mk, s)
    ensures key in Keys(k, s) && r == mk(key, Group(k, key, s))
  {
    RowPerKeyLength(k, mk, Keys(k, s), s);
    var i :| 0 <= i < |GroupBy(k, mk, s)| && GroupBy(k, mk, s)[i] == r;
    key := Keys(k, s)[i];
  }

  function KeyedSum<T, K(==)>(k: T -> K, w: T -> Totals, ks: seq<K>, s: seq<T>): Totals {
    if |ks| == 0 then ZERO
    else Plus(KeyedSum(k, w, ks[..|ks| - 1], s), Sum(w, Group(k, ks[|ks| - 1], s)))
  }

  lemma {:induction false} KeyedSumStep<T(!new), K(!new)>(k: T -> K, w: T -> Totals, ks: seq<K>, s: seq<T>, e: T)
    requires Distinct(ks)
    ensures KeyedSum(k, w, ks, s + [e]) ==
            if k(e) in ks then Plus(KeyedSum(k, w, ks, s), w(e)) else KeyedSum(k, w, ks, s)
  {
    if |ks| > 0 {
      var key := ks[|ks| - 1];
      KeyedSumStep(k, w, ks[..|ks| - 1], s, e);
      assert ks == ks[..|ks| - 1] + [key];
      FilterLast(HasKey(k, key), s, e);
      if k(e) == key {
        SumLast(w, Group(k, key, s), e);
      }
      PlusMoves(KeyedSum(k, w, ks[..|ks| - 1], s), Sum(w, Group(k, key, s)), w(e));
    }
  }

  /** Summing group by group over any distinct key list that covers the rows is
      summing the rows. */
  lemma {:induction false} KeyedSumTotal<T(!new), K(!new)>(k: T -> K, w: T -> Totals, ks: seq<K>, s: seq<T>)
    requires Distinct(ks)
    requires forall x :: x in s ==> k(x) in ks
    ensures KeyedSum(k, w, ks, s) == Sum(w, s)
  {
    if |s| == 0 {
      KeyedSumEmpty(k, w, ks);
      assert s == [];
    } else {
      var t, e := s[..|s| - 1], s[|s| - 1];
      assert s == t + [e];
      KeyedSumTotal(k, w, ks, t);
      KeyedSumStep(k, w, ks, t, e);
    }
  }

  lemma {:induction false} KeyedSumEmpty<T(!new), K(!new)>(k: T -> K, w: T -> Totals, ks: seq<K>)
    ensures KeyedSum(k, w, ks, []) == ZERO
  {
    if |ks| > 0 { KeyedSumEmpty(k, w, ks[..|ks| - 1]); }
  }

  lemma {:induction false} RowPerKeySum<T(!new), K(!new), R(!new)>(
      k: T -> K, mk: (K, seq<T>) -> R, ks: seq<K>, s: seq<T>, w: T -> Totals, v: R -> Totals)
    requires forall key :: key in ks ==> v(mk(key, Group(k, key, s))) == Sum(w, Group(k, key, s))
    ensures Sum(v, RowPerKey(k, mk, ks, s)) == KeyedSum(k, w, ks, s)
  {
    if |ks| > 0 {
      var front := ks[..|ks| - 1];
      assert ks == front + [ks[|ks| - 1]];
      RowPerKeySum(k, mk, front, s, w, v);
      var r := RowPerKey(k, mk, ks, s);
      RowPerKeyLength(k, mk, front, s);
      assert r[..|r| - 1] == RowPerKey(k, mk, front, s);
    }
  }

  /** The law behind every aggregation here: if each output row weighs what its
      group weighs, the output weighs what the input weighs. */
  lemma GroupBySum<T(!new), K(!new), R(!new)>(k: T -> K, mk: (K, seq<T>) -> R, s: seq<T>, w: T -> Totals, v: R -> Totals)
    requires forall key :: key in Keys(k, s) ==> v(mk(key, Group(k, key, s))) == Sum(w, Group(k, key, s))
    ensures Sum(v, GroupBy(k, mk, s)) == Sum(w, s)
  {
    KeysProperty(k, s);
    RowPerKeySum(k, mk, Keys(k, s), s, w, v);
    KeyedSumTotal(k, w, Keys(k, s), s);
  }
}
