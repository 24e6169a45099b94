/** The answer of GetSessions, told on the rows of the table.  Times are
    microseconds: seven days are 604_800_000_000, thirty minutes 1_800_000_000. */
module SessionResults {
  import opened Rows
  import opened Sorting
  import opened Sessions
  import opened Counting

  /** What a caller asks for: its project, identifier and service, each only when
      given, from a time on, or for the last seven days, and up to another if given. */
  ghost predicate Asked(f: Filters, now: int, r: Row) {
    && (f.project != "" ==> r.project == f.project)
    && (f.identifier != "" ==> r.identifier == f.identifier)
    && (f.service != "" ==> r.service == f.service)
    && r.timestamp >= (match f.from case Some(t) => t case None => now - 604_800_000_000)
    && (match f.until case Some(t) => r.timestamp <= t case None => true)
  }

  ghost predicate AskedOf(f: Filters, now: int, r: Row, who: Who) {
    Asked(f, now, r) && r.identifier == who.identifier && r.service == who.service
  }

  /** The asked rows of a session's identifier and service in its time. */
  ghost function Inside(table: seq<Row>, f: Filters, now: int, res: Result): set<int> {
    set i | 0 <= i < |table| && AskedOf(f, now, table[i], res.who) && res.session.start <= table[i].timestamp <= res.session.end
  }

  /** A session starts at one of its rows and ends at one. */
  ghost predicate Ends(table: seq<Row>, f: Filters, now: int, res: Result) {
    && (exists i :: i in Inside(table, f, now, res) && table[i].timestamp == res.session.start)
    && (exists i :: i in Inside(table, f, now, res) && table[i].timestamp == res.session.end)
  }

  /** From any of its rows but the last, the next is at most thirty minutes away. */
  ghost predicate Linked(table: seq<Row>, f: Filters, now: int, res: Result) {
    forall i :: i in Inside(table, f, now, res) && table[i].timestamp < res.session.end ==>
      exists j :: j in Inside(table, f, now, res) && 0 < table[j].timestamp - table[i].timestamp <= 1_800_000_000
  }

  ghost predicate Sound(rs: seq<Result>, table: seq<Row>, f: Filters, now: int) {
    forall k :: 0 <= k < |rs| ==>
      && Ends(table, f, now, rs[k]) && Linked(table, f, now, rs[k])
      && rs[k].session.count == |Inside(table, f, now, rs[k])|
  }

  /** Every asked row lies in a session of its identifier and service. */
  ghost predicate Complete(rs: seq<Result>, table: seq<Row>, f: Filters, now: int) {
    forall i :: 0 <= i < |table| && Asked(f, now, table[i]) ==>
      exists k :: 0 <= k < |rs| && i in Inside(table, f, now, rs[k])
  }

  /** Sessions of one identifier and service ascend, more than thirty minutes apart. */
  ghost predicate Separate(rs: seq<Result>) {
    forall k, l :: 0 <= k < l < |rs| && rs[k].who == rs[l].who ==> rs[l].session.start - rs[k].session.end > 1_800_000_000
  }

  // ----- one partition

  lemma SelectedAsks(f: Filters, now: int, r: Row)
    ensures Selected(f, now)(r) <==> Asked(f, now, r)
  {
  }

  function CoversIt(s: Session): int -> bool { (t: int) => Covers(s, t) }

  function InsideIt(s: Session): Row -> bool { (r: Row) => Covers(s, r.timestamp) }

  lemma {:induction false} FilterMultiset<T(!new)>(p: T -> bool, s: seq<T>, x: T)
    ensures multiset(Filter(p, s))[x] == if p(x) then multiset(s)[x] else 0
  {
    if |s| > 0 {
      var t, e := s[..|s| - 1], s[|s| - 1];
      assert s == t + [e];
      FilterMultiset(p, t, x);
      FilterLast(p, t, e);
    }
  }

  lemma {:induction false} CountInFilters(s: Session, ts: seq<int>)
    ensures CountIn(s, ts) == |Filter(CoversIt(s), ts)|
  {
    if |ts| > 0 {
      var front, t := ts[..|ts| - 1], ts[|ts| - 1];
      assert ts == front + [t];
      CountInFilters(s, front);
      FilterLast(CoversIt(s), front, t);
    }
  }

  lemma CountInPermuted(s: Session, a: seq<int>, b: seq<int>)
    requires multiset(a) == multiset(b)
    ensures CountIn(s, a) == CountIn(s, b)
  {
    var x, y := Filter(CoversIt(s), a), Filter(CoversIt(s), b);
    CountInFilters(s, a);
    CountInFilters(s, b);
    forall t ensures multiset(x)[t] == multiset(y)[t] {
      FilterMultiset(CoversIt(s), a, t);
      FilterMultiset(CoversIt(s), b, t);
    }
    hide *;
    assert multiset(x) == multiset(y);
    assert |x| == |multiset(x)| && |y| == |multiset(y)|;
  }

  lemma {:induction false} CountInRows(s: Session, rows: seq<Row>)
    ensures CountIn(s, TimesOf(rows)) == |Filter(InsideIt(s), rows)|
  {
    if |rows| > 0 {
      var front, r := rows[..|rows| - 1], rows[|rows| - 1];
      assert rows == front + [r] && TimesOf(rows) == TimesOf(front) + [r.timestamp];
      CountInRows(s, front);
      FilterLast(InsideIt(s), front, r);
    }
  }

  function MemberOf(f: Filters, now: int, who: Who): Row -> bool {
    (r: Row) => WhoOf(r) == who && Selected(f, now)(r)
  }

  /** The rows behind a partition. */
  lemma GroupSelected(table: seq<Row>, f: Filters, now: int, who: Who)
    ensures Group(WhoOf, who, Filter(Selected(f, now), table)) == Filter(MemberOf(f, now, who), table)
  {
    FilterTwice(HasKey(WhoOf, who), Selected(f, now), MemberOf(f, now, who), table);
  }

  lemma MemberAsked(f: Filters, now: int, who: Who, r: Row)
    ensures MemberOf(f, now, who)(r) <==> AskedOf(f, now, r, who)
  {
    SelectedAsks(f, now, r);
    hide Selected, Asked;
  }

  lemma PartitionTimes(table: seq<Row>, f: Filters, now: int, who: Who, t: int)
    ensures t in Partition(Filter(Selected(f, now), table), who) <==>
            exists i :: 0 <= i < |table| && AskedOf(f, now, table[i], who) && table[i].timestamp == t
  {
    var rows := Filter(MemberOf(f, now, who), table);
    GroupSelected(table, f, now, who);
    PartitionIsSplit(Filter(Selected(f, now), table), who);
    FilterMembers(MemberOf(f, now, who), table);
    forall r: Row { MemberAsked(f, now, who, r); }
    hide MemberOf, AskedOf, Filter, Selected, Group, Partition, QuerySessions, Greedy, Split, Anchored;
    InTimes(rows, t);
    var ts := Partition(Filter(Selected(f, now), table), who);
    assert t in ts <==> t in multiset(ts);
    assert t in TimesOf(rows) <==> t in multiset(TimesOf(rows));
    if i :| 0 <= i < |table| && AskedOf(f, now, table[i], who) && table[i].timestamp == t {
      assert table[i] in table;
    }
  }

  lemma InTimes(rows: seq<Row>, t: int)
    ensures t in TimesOf(rows) <==> exists r :: r in rows && r.timestamp == t
  {
    if r :| r in rows && r.timestamp == t {
      var i :| 0 <= i < |rows| && rows[i] == r;
      assert TimesOf(rows)[i] == t;
    }
  }

  lemma PartitionNumber(table: seq<Row>, f: Filters, now: int, who: Who, s: Session)
    ensures CountIn(s, Partition(Filter(Selected(f, now), table), who)) == |Inside(table, f, now, Result(who, s))|
  {
    hide *;
    var rows := Filter(Selected(f, now), table);
    PartitionIsSplit(rows, who);
    CountInPermuted(s, Partition(rows, who), TimesOf(Group(WhoOf, who, rows)));
    CountInRows(s, Group(WhoOf, who, rows));
    GroupSelected(table, f, now, who);
    FilterNumber(InsideIt(s), Filter(MemberOf(f, now, who), table));
    NumberWithin(MemberOf(f, now, who), InsideIt(s), table);
    BothInside(table, f, now, who, s);
  }

  lemma BothInside(table: seq<Row>, f: Filters, now: int, who: Who, s: Session)
    ensures Both(MemberOf(f, now, who), InsideIt(s), table) == Inside(table, f, now, Result(who, s))
  {
    forall r: Row { MemberAsked(f, now, who, r); }
    hide MemberOf, AskedOf;
  }

  /** The last event no later than t, before one that is. */
  lemma {:induction false} LastUpTo(ts: seq<int>, t: int, i: nat, j: nat) returns (n: nat)
    requires i < j < |ts| && ts[i] <= t < ts[j]
    ensures i <= n < j && ts[n] <= t < ts[n + 1]
    decreases j - i
  {
    if ts[i + 1] > t {
      n := i;
    } else {
      n := LastUpTo(ts, t, i + 1, j);
    }
  }

  /** Inside a session the next event is at most thirty minutes away. */
  lemma GreedyLinks(ts: seq<int>, k: nat, t: int) returns (u: int)
    requires Sorted(ts) && k < |Greedy(ts)| && t in ts && Covers(Greedy(ts)[k], t) && t < Greedy(ts)[k].end
    ensures u in ts && Covers(Greedy(ts)[k], u) && 0 < u - t <= 1_800_000_000
  {
    hide Greedy;
    GreedyAnchored(ts);
    var s := Greedy(ts)[k];
    assert s.end in ts;
    var i :| 0 <= i < |ts| && ts[i] == t;
    var j :| 0 <= j < |ts| && ts[j] == s.end;
    assert i < j;
    var n := LastUpTo(ts, t, i, j);
    assert ts[i] <= ts[n] && ts[n + 1] <= ts[j];
    hide Sorted;
    u := ts[n + 1];
    if u - t > GAP {
      NoBridge(ts, n);
    }
  }

  // ----- the whole answer

  ghost predicate Listed(rs: seq<Result>, whos: seq<Who>) {
    forall k :: 0 <= k < |rs| ==> rs[k].who in whos
  }

  lemma TaggedSeparate(who: Who, ss: seq<Session>)
    requires Apart(ss)
    ensures Separate(Tagged(who, ss))
  {
  }

  lemma SeparateAppend(a: seq<Result>, b: seq<Result>, whos: seq<Who>, who: Who)
    requires Separate(a) && Separate(b) && Listed(a, whos) && who !in whos && forall k :: 0 <= k < |b| ==> b[k].who == who
    ensures Separate(a + b)
  {
    var all := a + b;
    assert forall k :: 0 <= k < |a| ==> a[k].who in whos;
    forall k, l | 0 <= k < l < |all| && all[k].who == all[l].who
      ensures all[l].session.start - all[k].session.end > 1_800_000_000
    {
      if l < |a| {
        assert all[k] == a[k] && all[l] == a[l];
      } else {
        assert all[l] == b[l - |a|];
        if k >= |a| { assert all[k] == b[k - |a|]; }
      }
    }
  }

  lemma ListedAppend(a: seq<Result>, b: seq<Result>, whos: seq<Who>, who: Who)
    requires Listed(a, whos) && forall k :: 0 <= k < |b| ==> b[k].who == who
    ensures Listed(a + b, whos + [who])
  {
    var all := whos + [who];
    assert all[|whos|] == who;
    assert forall w :: w in whos ==> w in all;
  }

  /** The sessions of one identifier and service. */
  lemma OneSeparate(rows: seq<Row>, who: Who)
    ensures var r := Tagged(who, QuerySessions(Partition(rows, who)));
            Separate(r) && forall k :: 0 <= k < |r| ==> r[k].who == who
  {
    PartitionIsSplit(rows, who);
    hide Partition, QuerySessions, Greedy, Anchored, Separate, Apart;
    TaggedSeparate(who, QuerySessions(Partition(rows, who)));
  }

  lemma NewWho(front: seq<Who>, w: Who)
    requires Distinct(front + [w])
    ensures Distinct(front) && w !in front
  {
    var whos := front + [w];
    assert whos[|front|] == w;
    assert forall i :: 0 <= i < |front| ==> whos[i] == front[i];
  }

  lemma NoSessions(rows: seq<Row>)
    ensures PerWho([], rows) == [] && Separate([]) && Listed([], [])
  {
  }

  lemma PerWhoLast(front: seq<Who>, w: Who, rows: seq<Row>)
    ensures PerWho(front + [w], rows) == PerWho(front, rows) + Tagged(w, QuerySessions(Partition(rows, w)))
  {
    var whos := front + [w];
    hide Tagged, QuerySessions, Partition;
    assert whos[..|whos| - 1] == front;
  }

  lemma {:induction false} PerWhoSeparate(whos: seq<Who>, rows: seq<Row>)
    requires Distinct(whos)
    ensures Separate(PerWho(whos, rows)) && Listed(PerWho(whos, rows), whos)
  {
    hide *;
    if |whos| == 0 {
      NoSessions(rows);
      assert whos == [];
    } else {
      var front, w := whos[..|whos| - 1], whos[|whos| - 1];
      assert whos == front + [w];
      var ss := QuerySessions(Partition(rows, w));
      NewWho(front, w);
      PerWhoSeparate(front, rows);
      PerWhoLast(front, w, rows);
      OneSeparate(rows, w);
      SeparateAppend(PerWho(front, rows), Tagged(w, ss), front, w);
      ListedAppend(PerWho(front, rows), Tagged(w, ss), front, w);
    }
  }

  lemma ResultSplits(table: seq<Row>, f: Filters, now: int, res: Result) returns (k: nat)
    requires res in GetSessions(table, f, now)
    ensures var ts := Partition(Filter(Selected(f, now), table), res.who);
            && k < |Greedy(ts)| && Greedy(ts)[k] == res.session && Split(Greedy(ts), ts) && Anchored(Greedy(ts), ts) && Sorted(ts)
  {
    var rows := Filter(Selected(f, now), table);
    GetSessionsIsGreedy(table, f, now, res);
    PartitionIsSplit(rows, res.who);
    AscendingSorted(TimesOf(Group(WhoOf, res.who, rows)));
    hide GetSessions, Greedy, Split, Anchored, Sorted, Filter, Selected;
    k :| 0 <= k < |Greedy(Partition(rows, res.who))| && Greedy(Partition(rows, res.who))[k] == res.session;
  }

  /** One returned session. */
  lemma ResultSound(table: seq<Row>, f: Filters, now: int, res: Result)
    requires res in GetSessions(table, f, now)
    ensures Ends(table, f, now, res) && Linked(table, f, now, res) && res.session.count == |Inside(table, f, now, res)|
  {
    hide *;
    var ts := Partition(Filter(Selected(f, now), table), res.who);
    var k := ResultSplits(table, f, now, res);
    ResultFacts(ts, k);
    PartitionNumber(table, f, now, res.who, res.session);
    assert Result(res.who, res.session) == res;
    EndsInside(table, f, now, res, ts, k);
    LinksInside(table, f, now, res, ts, k);
  }

  lemma ResultFacts(ts: seq<int>, k: nat)
    requires k < |Greedy(ts)| && Split(Greedy(ts), ts) && Anchored(Greedy(ts), ts)
    ensures var s := Greedy(ts)[k]; s.start in ts && s.end in ts && s.start <= s.end && s.count == CountIn(s, ts)
  {
    hide Greedy, CountIn;
  }

  lemma EndsInside(table: seq<Row>, f: Filters, now: int, res: Result, ts: seq<int>, k: nat)
    requires ts == Partition(Filter(Selected(f, now), table), res.who)
    requires res.session.start in ts && res.session.end in ts && res.session.start <= res.session.end
    ensures Ends(table, f, now, res)
  {
    PartitionTimes(table, f, now, res.who, res.session.start);
    PartitionTimes(table, f, now, res.who, res.session.end);
    hide Partition, Filter, Selected, AskedOf;
    var i :| 0 <= i < |table| && AskedOf(f, now, table[i], res.who) && table[i].timestamp == res.session.start;
    var j :| 0 <= j < |table| && AskedOf(f, now, table[j], res.who) && table[j].timestamp == res.session.end;
    assert i in Inside(table, f, now, res) && j in Inside(table, f, now, res);
  }

  lemma LinksInside(table: seq<Row>, f: Filters, now: int, res: Result, ts: seq<int>, k: nat)
    requires ts == Partition(Filter(Selected(f, now), table), res.who)
    requires Sorted(ts) && k < |Greedy(ts)| && Greedy(ts)[k] == res.session
    ensures Linked(table, f, now, res)
  {
    hide Partition, Filter, Selected, AskedOf, Greedy, Sorted;
    forall i | i in Inside(table, f, now, res) && table[i].timestamp < res.session.end
      ensures exists j :: j in Inside(table, f, now, res) && 0 < table[j].timestamp - table[i].timestamp <= 1_800_000_000
    {
      var t := table[i].timestamp;
      PartitionTimes(table, f, now, res.who, t);
      var u := GreedyLinks(ts, k, t);
      PartitionTimes(table, f, now, res.who, u);
      var j :| 0 <= j < |table| && AskedOf(f, now, table[j], res.who) && table[j].timestamp == u;
      assert j in Inside(table, f, now, res);
    }
  }

  lemma CoversHolds(ts: seq<int>, t: int) returns (k: nat)
    requires Split(Greedy(ts), ts) && t in ts
    ensures k < |Greedy(ts)| && Greedy(ts)[k].start <= t <= Greedy(ts)[k].end
  {
    hide Greedy, Endpoints, Counts, Short, Apart;
    assert Covered(Greedy(ts), t);
    k :| 0 <= k < |Greedy(ts)| && Covers(Greedy(ts)[k], t);
  }

  lemma AskedOfItself(f: Filters, now: int, r: Row)
    requires Asked(f, now, r)
    ensures AskedOf(f, now, r, WhoOf(r))
  {
  }

  lemma IsInside(table: seq<Row>, f: Filters, now: int, res: Result, i: nat)
    requires i < |table| && AskedOf(f, now, table[i], res.who) && res.session.start <= table[i].timestamp <= res.session.end
    ensures i in Inside(table, f, now, res)
  {
  }

  lemma RowShown(table: seq<Row>, f: Filters, now: int, i: nat) returns (res: Result)
    requires i < |table| && Asked(f, now, table[i])
    ensures res in GetSessions(table, f, now) && i in Inside(table, f, now, res)
  {
    hide *;
    var rows, who := Filter(Selected(f, now), table), WhoOf(table[i]);
    var ts, t := Partition(rows, who), table[i].timestamp;
    SelectedAsks(f, now, table[i]);
    FilterMember(Selected(f, now), table, table[i]);
    AskedOfItself(f, now, table[i]);
    PartitionTimes(table, f, now, who, t);
    PartitionIsSplit(rows, who);
    var k := CoversHolds(ts, t);
    res := Result(who, Greedy(ts)[k]);
    GetSessionsIsGreedy(table, f, now, res);
    IsInside(table, f, now, res, i);
  }

  lemma AllSound(table: seq<Row>, f: Filters, now: int)
    ensures Sound(GetSessions(table, f, now), table, f, now)
  {
    var rs := GetSessions(table, f, now);
    hide GetSessions, Ends, Linked, Inside;
    forall k | 0 <= k < |rs|
      ensures Ends(table, f, now, rs[k]) && Linked(table, f, now, rs[k]) && rs[k].session.count == |Inside(table, f, now, rs[k])|
    {
      ResultSound(table, f, now, rs[k]);
    }
  }

  lemma AllShown(table: seq<Row>, f: Filters, now: int)
    ensures Complete(GetSessions(table, f, now), table, f, now)
  {
    var rs := GetSessions(table, f, now);
    hide GetSessions, Inside, Asked;
    forall i | 0 <= i < |table| && Asked(f, now, table[i])
      ensures exists k :: 0 <= k < |rs| && i in Inside(table, f, now, rs[k])
    {
      var res := RowShown(table, f, now, i);
      var k :| 0 <= k < |rs| && rs[k] == res;
    }
  }

  lemma AllSeparate(table: seq<Row>, f: Filters, now: int)
    ensures Separate(GetSessions(table, f, now))
  {
    var rows := Filter(Selected(f, now), table);
    KeysProperty(WhoOf, rows);
    PerWhoSeparate(Keys(WhoOf, rows), rows);
    hide Filter, Selected, Keys, PerWho, Separate, Distinct;
  }

  /** The sessions returned start and end at asked rows, count the asked rows of
      their identifier and service inside them, never span a gap of more than
      thirty minutes and lie further apart than that; and every asked row is in
      one of its identifier and service. */
  lemma SessionsMean(table: seq<Row>, f: Filters, now: int)
    ensures var rs := GetSessions(table, f, now);
            Sound(rs, table, f, now) && Complete(rs, table, f, now) && Separate(rs)
  {
    hide *;
    AllSound(table, f, now);
    AllShown(table, f, now);
    AllSeparate(table, f, now);
  }

  /** Only the asked rows matter: on any two tables that hold each of them equally
      often the same sessions are returned. */
  lemma OnlyAskedRowsMatter(a: seq<Row>, b: seq<Row>, f: Filters, now: int, res: Result)
    requires forall r :: Asked(f, now, r) ==> multiset(a)[r] == multiset(b)[r]
    ensures res in GetSessions(a, f, now) <==> res in GetSessions(b, f, now)
  {
    var x, y := Filter(Selected(f, now), a), Filter(Selected(f, now), b);
    forall r ensures multiset(x)[r] == multiset(y)[r] {
      SelectedAsks(f, now, r);
      FilterMultiset(Selected(f, now), a, r);
      FilterMultiset(Selected(f, now), b, r);
    }
    hide *;
    assert multiset(x) == multiset(y);
    SamePartition(x, y, res.who);
    SameMembers(x, y);
    GetSessionsIsGreedy(a, f, now, res);
    GetSessionsIsGreedy(b, f, now, res);
  }

  lemma SameMembers(x: seq<Row>, y: seq<Row>)
    requires multiset(x) == multiset(y)
    ensures forall r :: r in x <==> r in y
  {
    forall r ensures r in x <==> r in y { assert (r in x <==> r in multiset(x)) && (r in y <==> r in multiset(y)); }
  }

  lemma SamePartition(x: seq<Row>, y: seq<Row>, who: Who)
    requires multiset(x) == multiset(y)
    ensures Greedy(Partition(x, who)) == Greedy(Partition(y, who))
  {
    hide *;
    StoredOrderIsIrrelevant(x, y, who);
    PartitionIsSplit(x, who);
    PartitionIsSplit(y, who);
  }
}
