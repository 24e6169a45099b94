/** Ascending order of a bag of integers. */
module Sorting {

  function Insert(x: int, s: seq<int>): seq<int> {
    if |s| == 0 || x <= s[0] then [x] + s else [s[0]] + Insert(x, s[1..])
  }

  function Ascending(s: seq<int>): seq<int> {
    if |s| == 0 then [] else Insert(s[0], Ascending(s[1..]))
  }

  lemma {:induction false} InsertPermutes(x: int, s: seq<int>)
    ensures multiset(Insert(x, s)) == multiset(s) + multiset{x}
    ensures |Insert(x, s)| == |s| + 1
  {
    if |s| > 0 && x > s[0] {
      InsertPermutes(x, s[1..]);
      assert s == [s[0]] + s[1..];
    }
  }

  lemma {:induction false} AscendingPermutes(s: seq<int>)
    ensures multiset(Ascending(s)) == multiset(s)
    ensures |Ascending(s)| == |s|
  {
    if |s| > 0 {
      AscendingPermutes(s[1..]);
      InsertPermutes(s[0], Ascending(s[1..]));
      assert s == [s[0]] + s[1..];
    }
  }

  lemma {:induction false} InsertSorted(x: int, s: seq<int>)
    requires Sorted(s)
    ensures Sorted(Insert(x, s))
  {
    if |s| > 0 && x > s[0] {
      InsertSorted(x, s[1..]);
      InsertPermutes(x, s[1..]);
      forall k | 0 <= k < |Insert(x, s[1..])| ensures s[0] <= Insert(x, s[1..])[k] {
        assert Insert(x, s[1..])[k] in multiset(Insert(x, s[1..]));
        assert Insert(x, s[1..])[k] in multiset(s[1..]) + multiset{x};
      }
    }
  }

  lemma {:induction false} AscendingSorted(s: seq<int>)
    ensures Sorted(Ascending(s))
  {
    if |s| > 0 {
      AscendingSorted(s[1..]);
      InsertSorted(s[0], Ascending(s[1..]));
    }
  }

  ghost predicate Sorted(s: seq<int>) {
    forall i, j :: 0 <= i < j < |s| ==> s[i] <= s[j]
  }

  lemma HeadIsLeast(s: seq<int>, x: int)
    requires Sorted(s) && x in multiset(s)
    ensures |s| > 0 && s[0] <= x
  {
    var i :| 0 <= i < |s| && s[i] == x;
  }

  lemma TailMultiset(s: seq<int>)
    requires |s| > 0
    ensures multiset(s[1..]) == multiset(s) - multiset{s[0]} && s[0] in multiset(s)
  {
    assert s == [s[0]] + s[1..];
  }

  lemma SameHead(s: seq<int>, t: seq<int>)
    requires |s| > 0 && multiset(s) == multiset(t) && Sorted(s) && Sorted(t)
    ensures |t| > 0 && s[0] == t[0] && multiset(s[1..]) == multiset(t[1..]) && Sorted(s[1..]) && Sorted(t[1..])
  {
    TailSorted(s);
    TailMultiset(s);
    HeadIsLeast(t, s[0]);
    TailSorted(t);
    TailMultiset(t);
    HeadIsLeast(s, t[0]);
  }

  lemma {:induction false} SortedUnique(s: seq<int>, t: seq<int>)
    requires multiset(s) == multiset(t) && Sorted(s) && Sorted(t)
    ensures s == t
  {
    hide Sorted;
    if |s| == 0 {
      assert |multiset(t)| == |t|;
    } else {
      SameHead(s, t);
      SortedUnique(s[1..], t[1..]);
      assert s == [s[0]] + s[1..];
    }
  }

  lemma TailSorted(s: seq<int>)
    requires |s| > 0 && Sorted(s)
    ensures Sorted(s[1..])
  {
  }

  /** Sorting forgets the order the rows were stored in. */
  lemma AscendingOfPermutation(s: seq<int>, t: seq<int>)
    requires multiset(s) == multiset(t)
    ensures Ascending(s) == Ascending(t)
  {
    AscendingPermutes(s);
    AscendingPermutes(t);
    AscendingSorted(s);
    AscendingSorted(t);
    SortedUnique(Ascending(s), Ascending(t));
  }
}
