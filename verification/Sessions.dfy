/** Derived sessions: the window-function query of GetSessions against a greedy
    splitter at gaps of more than thirty minutes.  Times are microseconds. */
module Sessions {
  import opened Options
  import opened Rows
  import opened Sorting

  const GAP: int := 1_800_000_000
  const WEEK: int := 7 * 24 * 3_600_000_000

  datatype Row = Row(project: string, identifier: string, service: string, timestamp: int)

  datatype Who = Who(identifier: string, service: string)

  datatype Session = Session(start: int, end: int, count: int)

  datatype Filters = Filters(project: string, identifier: string, service: string,
                             from: Option<int>, until: Option<int>)

  /** The WHERE clause; an empty text filters nothing, and without a start the
      query looks back seven days. */
  function Selected(f: Filters, now: int): Row -> bool {
    (r: Row) =>
      (f.project == "" || r.project == f.project) &&
      (f.identifier == "" || r.identifier == f.identifier) &&
      (f.service == "" || r.service == f.service) &&
      f.from.GetOr(now - WEEK) <= r.timestamp &&
      (f.until.None? || r.timestamp <= f.until.value)
  }

  // ----- the query, over the ascending timestamps of one partition

  /** LAG and CASE: the first row of a partition, or a gap of more than GAP. */
  function IsNew(ts: seq<int>, i: nat): int
    requires i < |ts|
  {
    if i == 0 || ts[i] - ts[i - 1] > GAP then 1 else 0
  }

  /** SUM(is_new) OVER (ORDER BY timestamp): the default frame holds every row up
      to the current one and all its peers, that is, all rows not later. */
  function RunningSum(ts: seq<int>, upTo: int, n: nat): int
    requires n <= |ts|
  {
    if n == 0 then 0 else RunningSum(ts, upTo, n - 1) + if ts[n - 1] <= upTo then IsNew(ts, n - 1) else 0
  }

  function SessionId(ts: seq<int>, i: nat): int
    requires i < |ts|
  {
    RunningSum(ts, ts[i], |ts|)
  }

  datatype Labelled = Labelled(t: int, sid: int)

  function Labels(ts: seq<int>): seq<Labelled> {
    seq(|ts|, i requires 0 <= i < |ts| => Labelled(ts[i], SessionId(ts, i)))
  }

  function SidOf(l: Labelled): int { l.sid }

  function MinTime(g: seq<Labelled>): int
    requires |g| > 0
  {
    if |g| == 1 then g[0].t else
      var m := MinTime(g[..|g| - 1]);
      if g[|g| - 1].t < m then g[|g| - 1].t else m
  }

  function MaxTime(g: seq<Labelled>): int
    requires |g| > 0
  {
    if |g| == 1 then g[0].t else
      var m := MaxTime(g[..|g| - 1]);
      if g[|g| - 1].t > m then g[|g| - 1].t else m
  }

  function SessionRow(sid: int, g: seq<Labelled>): Session {
    if |g| == 0 then Session(0, 0, 0) else Session(MinTime(g), MaxTime(g), |g|)
  }

  /** GROUP BY session_id. */
  function QuerySessions(ts: seq<int>): seq<Session> {
    GroupBy(SidOf, SessionRow, Labels(ts))
  }

  // ----- the splitter

  /** The splitter's step: extend the last session or open a new one. */
  function Next(ss: seq<Session>, front: seq<int>, t: int): seq<Session>
    requires |front| > 0 ==> |ss| > 0
  {
    if |front| > 0 && t - front[|front| - 1] <= GAP
    then ss[..|ss| - 1] + [ss[|ss| - 1].(end := t, count := ss[|ss| - 1].count + 1)]
    else ss + [Session(t, t, 1)]
  }

  function Greedy(ts: seq<int>): (r: seq<Session>)
    ensures |ts| > 0 ==> |r| > 0
  {
    if |ts| == 0 then []
    else Next(Greedy(ts[..|ts| - 1]), ts[..|ts| - 1], ts[|ts| - 1])
  }

  // ----- the query is the splitter

  lemma {:induction false} RunningSumExtend(front: seq<int>, t: int, upTo: int, n: nat)
    requires n <= |front|
    ensures RunningSum(front + [t], upTo, n) == RunningSum(front, upTo, n)
  {
    if n > 0 { RunningSumExtend(front, t, upTo, n - 1); }
  }

  lemma {:induction false} RunningSumAll(ts: seq<int>, u: int, v: int, n: nat)
    requires n <= |ts| && forall i :: 0 <= i < n ==> ts[i] <= u && ts[i] <= v
    ensures RunningSum(ts, u, n) == RunningSum(ts, v, n)
  {
    if n > 0 { RunningSumAll(ts, u, v, n - 1); }
  }

  lemma FrontBelow(front: seq<int>, t: int)
    requires Sorted(front + [t])
    ensures Sorted(front)
    ensures forall i :: 0 <= i < |front| ==> front[i] <= front[|front| - 1] <= t
    ensures forall x :: x in front ==> x <= front[|front| - 1] <= t
  {
    var ts := front + [t];
    assert forall i :: 0 <= i < |front| ==> ts[i] == front[i];
    assert ts[|front|] == t;
  }

  /** Appending the next row leaves the earlier labels alone, tied or not. */
  lemma LabelsExtend(front: seq<int>, t: int)
    requires Sorted(front + [t])
    ensures Labels(front + [t]) == Labels(front) + [Labelled(t, SessionId(front + [t], |front|))]
    ensures SessionId(front + [t], |front|) ==
            if |front| == 0 then 1
            else SessionId(front, |front| - 1) + if t - front[|front| - 1] > GAP then 1 else 0
  {
    var ts := front + [t];
    forall i | 0 <= i < |front| ensures SessionId(ts, i) == SessionId(front, i) {
      RunningSumExtend(front, t, front[i], |front|);
      assert ts[i] == front[i];
      if t <= ts[i] { assert ts[|front| - 1] == front[|front| - 1] >= ts[i]; }
    }
    RunningSumExtend(front, t, t, |front|);
    FrontBelow(front, t);
    if |front| > 0 {
      RunningSumAll(front, t, front[|front| - 1], |front|);
    }
  }

  lemma OtherKey(k: int, s: seq<Labelled>, e: Labelled)
    requires e.sid != k
    ensures Group(SidOf, k, s + [e]) == Group(SidOf, k, s)
  {
    assert SidOf(e) == e.sid;
    FilterLast(HasKey(SidOf, k), s, e);
  }

  lemma {:induction false} RowPerKeyOther(ks: seq<int>, s: seq<Labelled>, e: Labelled)
    requires e.sid !in ks
    ensures RowPerKey(SidOf, SessionRow, ks, s + [e]) == RowPerKey(SidOf, SessionRow, ks, s)
  {
    if |ks| > 0 {
      assert ks[|ks| - 1] in ks;
      RowPerKeyOther(ks[..|ks| - 1], s, e);
      OtherKey(ks[|ks| - 1], s, e);
      hide SessionRow, Group;
    }
  }

  /** A row with a new key opens a group of its own. */
  lemma GroupByNew(s: seq<Labelled>, e: Labelled)
    requires e.sid !in Keys(SidOf, s)
    ensures Keys(SidOf, s + [e]) == Keys(SidOf, s) + [e.sid]
    ensures GroupBy(SidOf, SessionRow, s + [e]) == GroupBy(SidOf, SessionRow, s) + [Session(e.t, e.t, 1)]
  {
    var ks := Keys(SidOf, s);
    assert (s + [e])[..|s + [e]| - 1] == s;
    assert (ks + [e.sid])[..|ks + [e.sid]| - 1] == ks;
    RowPerKeyOther(ks, s, e);
    KeysProperty(SidOf, s);
    FilterNone(HasKey(SidOf, e.sid), s);
    FilterLast(HasKey(SidOf, e.sid), s, e);
    assert Group(SidOf, e.sid, s + [e]) == [] + [e] == [e];
  }

  lemma {:induction false} MaxTimeIs(g: seq<Labelled>, t: int)
    requires |g| > 0 && forall x :: x in g ==> x.t <= t
    ensures MaxTime(g) <= t
  {
    if |g| > 1 { MaxTimeIs(g[..|g| - 1], t); }
    assert g[|g| - 1] in g;
  }

  lemma {:induction false} MinTimeIs(g: seq<Labelled>, t: int)
    requires |g| > 0 && forall x :: x in g ==> x.t <= t
    ensures MinTime(g) <= t
  {
    if |g| > 1 { MinTimeIs(g[..|g| - 1], t); }
    assert g[|g| - 1] in g;
  }

  lemma SessionRowGrows(sid: int, g: seq<Labelled>, e: Labelled)
    requires |g| > 0 && forall x :: x in g ==> x.t <= e.t
    ensures SessionRow(sid, g + [e]) == SessionRow(sid, g).(end := e.t, count := SessionRow(sid, g).count + 1)
  {
    assert (g + [e])[..|g + [e]| - 1] == g;
    MaxTimeIs(g, e.t);
    MinTimeIs(g, e.t);
  }

  lemma KeysOfKnown(s: seq<Labelled>, e: Labelled)
    requires e.sid in Keys(SidOf, s)
    ensures Keys(SidOf, s + [e]) == Keys(SidOf, s)
  {
    assert (s + [e])[..|s + [e]| - 1] == s;
  }

  /** A row whose key is the latest one, and no earlier than any other, extends
      the last group. */
  lemma GroupByLast(s: seq<Labelled>, e: Labelled)
    requires |Keys(SidOf, s)| > 0 && Keys(SidOf, s)[|Keys(SidOf, s)| - 1] == e.sid
    requires forall x :: x in s ==> x.t <= e.t
    ensures Keys(SidOf, s + [e]) == Keys(SidOf, s)
    ensures var (was, now) := (GroupBy(SidOf, SessionRow, s), GroupBy(SidOf, SessionRow, s + [e]));
            |was| > 0 && now == was[..|was| - 1] + [was[|was| - 1].(end := e.t, count := was[|was| - 1].count + 1)]
  {
    var ks := Keys(SidOf, s);
    var front := ks[..|ks| - 1];
    hide Keys, SessionRow, Group;
    KeysOfKnown(s, e);
    KeysProperty(SidOf, s);
    assert ks == front + [e.sid];
    RowPerKeyOther(front, s, e);
    LastGroupGrows(s, e);
  }

  lemma LastGroupGrows(s: seq<Labelled>, e: Labelled)
    requires e.sid in Keys(SidOf, s) && forall x :: x in s ==> x.t <= e.t
    ensures var (was, now) := (SessionRow(e.sid, Group(SidOf, e.sid, s)), SessionRow(e.sid, Group(SidOf, e.sid, s + [e])));
            now == was.(end := e.t, count := was.count + 1)
  {
    var g := Group(SidOf, e.sid, s);
    GroupNonEmpty(SidOf, e.sid, s);
    assert SidOf(e) == e.sid;
    FilterLast(HasKey(SidOf, e.sid), s, e);
    assert Group(SidOf, e.sid, s + [e]) == g + [e];
    hide SessionRow, Group;
    SessionRowGrows(e.sid, g, e);
  }

  ghost predicate LastKey(ks: seq<int>, sid: int) {
    |ks| > 0 && ks[|ks| - 1] == sid && forall k :: k in ks ==> k <= sid
  }

  lemma LabelsBelow(front: seq<int>, t: int)
    requires Sorted(front + [t])
    ensures forall x :: x in Labels(front) ==> x.t <= t
  {
    FrontBelow(front, t);
    assert forall x :: x in Labels(front) ==> x.t in front;
  }

  /** Grouping one more row, labelled as the query labels it. */
  lemma GroupStep(s: seq<Labelled>, front: seq<int>, prev: int, e: Labelled)
    requires |s| == |front| && forall x :: x in s ==> x.t <= e.t
    requires |front| > 0 ==> LastKey(Keys(SidOf, s), prev)
    requires e.sid == if |front| == 0 then 1 else prev + if e.t - front[|front| - 1] > GAP then 1 else 0
    ensures |front| > 0 ==> |GroupBy(SidOf, SessionRow, s)| > 0
    ensures GroupBy(SidOf, SessionRow, s + [e]) == Next(GroupBy(SidOf, SessionRow, s), front, e.t)
    ensures LastKey(Keys(SidOf, s + [e]), e.sid)
  {
    hide Keys, GroupBy;
    RowsPerKey(s);
    if |front| > 0 && e.t - front[|front| - 1] <= GAP {
      GroupByLast(s, e);
    } else {
      if |front| == 0 { NoKeys(s); }
      GroupByNew(s, e);
    }
  }

  lemma QueryStep(front: seq<int>, t: int)
    requires Sorted(front + [t])
    requires |front| > 0 ==> LastKey(Keys(SidOf, Labels(front)), SessionId(front, |front| - 1))
    ensures |front| > 0 ==> |QuerySessions(front)| > 0
    ensures QuerySessions(front + [t]) == Next(QuerySessions(front), front, t)
    ensures LastKey(Keys(SidOf, Labels(front + [t])), SessionId(front + [t], |front|))
  {
    LabelsExtend(front, t);
    LabelsBelow(front, t);
    var e := Labelled(t, SessionId(front + [t], |front|));
    assert |Labels(front)| == |front|;
    hide SessionId, Keys, GroupBy, Sorted, Labels, LastKey, Next;
    GroupStep(Labels(front), front, if |front| == 0 then 0 else SessionId(front, |front| - 1), e);
  }

  lemma RowsPerKey(s: seq<Labelled>)
    ensures |GroupBy(SidOf, SessionRow, s)| == |Keys(SidOf, s)|
  {
    RowPerKeyLength(SidOf, SessionRow, Keys(SidOf, s), s);
  }

  lemma NoKeys(s: seq<Labelled>)
    requires |s| == 0
    ensures Keys(SidOf, s) == [] && GroupBy(SidOf, SessionRow, s) == []
  {
  }

  /** The query labels, groups and measures exactly what the splitter builds,
      ties included. */
  lemma {:induction false} QueryIsGreedy(ts: seq<int>)
    requires Sorted(ts)
    ensures QuerySessions(ts) == Greedy(ts)
    ensures |ts| > 0 ==> LastKey(Keys(SidOf, Labels(ts)), SessionId(ts, |ts| - 1))
  {
    if |ts| == 0 {
      NoKeys(Labels(ts));
    } else {
      hide LastKey, QuerySessions, Next, SessionId, Labels;
      var front, t := ts[..|ts| - 1], ts[|ts| - 1];
      assert ts == front + [t];
      FrontBelow(front, t);
      hide Sorted;
      QueryIsGreedy(front);
      QueryStep(front, t);
    }
  }

  // ----- what the sessions say about the events

  predicate Covers(s: Session, t: int) { s.start <= t <= s.end }

  function CountIn(s: Session, ts: seq<int>): nat {
    if |ts| == 0 then 0 else CountIn(s, ts[..|ts| - 1]) + if Covers(s, ts[|ts| - 1]) then 1 else 0
  }

  /** Sessions run forwards and the last one ends with the last event. */
  ghost predicate Endpoints(ss: seq<Session>, ts: seq<int>) {
    && (|ts| > 0 ==> |ss| > 0 && ss[|ss| - 1].end == ts[|ts| - 1])
    && forall k :: 0 <= k < |ss| ==> ss[k].start <= ss[k].end && |ts| > 0 && ss[k].end <= ts[|ts| - 1]
  }

  /** Each session starts and ends with an event. */
  ghost predicate Anchored(ss: seq<Session>, ts: seq<int>) {
    forall k :: 0 <= k < |ss| ==> ss[k].start in ts && ss[k].end in ts
  }

  lemma NextAnchored(ss: seq<Session>, front: seq<int>, t: int)
    requires Anchored(ss, front) && (|front| > 0 ==> |ss| > 0)
    ensures Anchored(Next(ss, front, t), front + [t])
  {
    var (r, ts) := (Next(ss, front, t), front + [t]);
    assert ts[|front|] == t;
    forall x | x in front ensures x in ts { var i :| 0 <= i < |front| && front[i] == x; assert ts[i] == x; }
    forall k | 0 <= k < |r| ensures r[k].start in ts && r[k].end in ts {
      if k < |ss| { assert ss[k].start in front && ss[k].end in front; }
    }
  }

  lemma {:induction false} GreedyAnchored(ts: seq<int>)
    ensures Anchored(Greedy(ts), ts)
  {
    if |ts| > 0 {
      var front, t := ts[..|ts| - 1], ts[|ts| - 1];
      assert ts == front + [t];
      hide Anchored, Next;
      GreedyAnchored(front);
      NextAnchored(Greedy(front), front, t);
    }
  }

  /** Each session counts the events it covers. */
  ghost predicate Counts(ss: seq<Session>, ts: seq<int>) {
    forall k :: 0 <= k < |ss| ==> ss[k].count == CountIn(ss[k], ts)
  }

  /** A session lasts at most thirty minutes per further event. */
  ghost predicate Short(ss: seq<Session>) {
    forall k :: 0 <= k < |ss| ==> ss[k].end - ss[k].start <= GAP * (ss[k].count - 1)
  }

  /** Sessions are more than thirty minutes apart, in ascending order. */
  ghost predicate Apart(ss: seq<Session>) {
    forall k, l :: 0 <= k < l < |ss| ==> ss[l].start - ss[k].end > GAP
  }

  ghost predicate Covered(ss: seq<Session>, t: int) {
    exists k :: 0 <= k < |ss| && Covers(ss[k], t)
  }

  ghost predicate AllCovered(ss: seq<Session>, ts: seq<int>) {
    forall t :: t in ts ==> Covered(ss, t)
  }

  lemma {:induction false} CountInSame(a: Session, b: Session, ts: seq<int>)
    requires forall t :: t in ts ==> (Covers(a, t) <==> Covers(b, t))
    ensures CountIn(a, ts) == CountIn(b, ts)
  {
    if |ts| > 0 {
      assert ts[|ts| - 1] in ts;
      CountInSame(a, b, ts[..|ts| - 1]);
    }
  }

  lemma {:induction false} CountInNone(s: Session, ts: seq<int>)
    requires forall t :: t in ts ==> !Covers(s, t)
    ensures CountIn(s, ts) == 0
  {
    if |ts| > 0 {
      assert ts[|ts| - 1] in ts;
      CountInNone(s, ts[..|ts| - 1]);
    }
  }

  lemma CountInLast(s: Session, front: seq<int>, t: int)
    ensures CountIn(s, front + [t]) == CountIn(s, front) + if Covers(s, t) then 1 else 0
  {
    assert (front + [t])[..|front|] == front;
  }

  lemma ExtendKeeps(ss: seq<Session>, grown: Session, front: seq<int>, t: int)
    requires |ss| > 0 && |front| > 0 && Endpoints(ss, front) && Short(ss) && Apart(ss)
    requires grown == ss[|ss| - 1].(end := t, count := ss[|ss| - 1].count + 1)
    requires 0 <= t - front[|front| - 1] <= GAP
    ensures (front + [t])[|front + [t]| - 1] == t
    ensures Endpoints(ss[..|ss| - 1] + [grown], front + [t])
    ensures Short(ss[..|ss| - 1] + [grown]) && Apart(ss[..|ss| - 1] + [grown])
  {
  }

  lemma ExtendCounts(ss: seq<Session>, grown: Session, front: seq<int>, t: int)
    requires |ss| > 0 && |front| > 0 && Endpoints(ss, front) && Counts(ss, front) && Apart(ss)
    requires grown == ss[|ss| - 1].(end := t, count := ss[|ss| - 1].count + 1)
    requires forall x :: x in front ==> x <= front[|front| - 1] <= t
    ensures Counts(ss[..|ss| - 1] + [grown], front + [t])
  {
    var r := ss[..|ss| - 1] + [grown];
    assert front[|front| - 1] in front;
    CountInSame(grown, ss[|ss| - 1], front);
    forall k | 0 <= k < |r| ensures r[k].count == CountIn(r[k], front + [t]) {
      CountInLast(r[k], front, t);
      if k < |r| - 1 { assert r[k] == ss[k] && ss[|ss| - 1].start - ss[k].end > GAP; }
    }
  }

  lemma ExtendCovers(ss: seq<Session>, grown: Session, front: seq<int>, t: int)
    requires |ss| > 0 && AllCovered(ss, front)
    requires grown.start == ss[|ss| - 1].start && grown.end == t
    requires ss[|ss| - 1].start <= ss[|ss| - 1].end <= t
    ensures AllCovered(ss[..|ss| - 1] + [grown], front + [t])
  {
    var r := ss[..|ss| - 1] + [grown];
    forall x | x in front + [t] ensures Covered(r, x) {
      if x in front {
        var k :| 0 <= k < |ss| && Covers(ss[k], x);
        assert Covers(r[k], x);
      } else {
        assert Covers(r[|r| - 1], x);
      }
    }
  }

  lemma OpenKeeps(ss: seq<Session>, front: seq<int>, t: int)
    requires Endpoints(ss, front) && Short(ss) && Apart(ss)
    requires if |front| == 0 then ss == [] else t - front[|front| - 1] > GAP
    ensures Endpoints(ss + [Session(t, t, 1)], front + [t])
    ensures Short(ss + [Session(t, t, 1)]) && Apart(ss + [Session(t, t, 1)])
  {
    var r := ss + [Session(t, t, 1)];
    forall k, l | 0 <= k < l < |r| ensures r[l].start - r[k].end > GAP {
      if k < |ss| - 1 { assert ss[|ss| - 1].start - ss[k].end > GAP; }
    }
  }

  lemma OpenCounts(ss: seq<Session>, front: seq<int>, t: int)
    requires Endpoints(ss, front) && Counts(ss, front)
    requires forall x :: x in front ==> x < t
    ensures Counts(ss + [Session(t, t, 1)], front + [t])
  {
    var r := ss + [Session(t, t, 1)];
    CountInNone(Session(t, t, 1), front);
    forall k | 0 <= k < |r| ensures r[k].count == CountIn(r[k], front + [t]) {
      CountInLast(r[k], front, t);
      if k < |ss| { assert front[|front| - 1] in front && r[k] == ss[k]; }
    }
  }

  lemma OpenCovers(ss: seq<Session>, front: seq<int>, t: int)
    requires AllCovered(ss, front)
    ensures AllCovered(ss + [Session(t, t, 1)], front + [t])
  {
    var r := ss + [Session(t, t, 1)];
    forall x | x in front + [t] ensures Covered(r, x) {
      if x in front {
        var k :| 0 <= k < |ss| && Covers(ss[k], x);
        assert Covers(r[k], x);
      } else {
        assert Covers(r[|r| - 1], x);
      }
    }
  }

  ghost predicate Split(ss: seq<Session>, ts: seq<int>) {
    Endpoints(ss, ts) && Counts(ss, ts) && Short(ss) && Apart(ss) && AllCovered(ss, ts) && (|ts| == 0 ==> ss == [])
  }

  lemma NextSplits(ss: seq<Session>, front: seq<int>, t: int)
    requires Sorted(front + [t]) && Split(ss, front)
    ensures Split(Next(ss, front, t), front + [t])
  {
    FrontBelow(front, t);
    hide Sorted, Counts, Short, Apart, AllCovered;
    if |front| > 0 && t - front[|front| - 1] <= GAP {
      var last := ss[|ss| - 1];
      var grown := last.(end := t, count := last.count + 1);
      assert last.start <= last.end <= t;
      hide Endpoints;
      ExtendKeeps(ss, grown, front, t);
      ExtendCounts(ss, grown, front, t);
      ExtendCovers(ss, grown, front, t);
    } else {
      hide Endpoints;
      OpenKeeps(ss, front, t);
      OpenCounts(ss, front, t);
      OpenCovers(ss, front, t);
    }
  }

  /** The sessions cover every event, count the events they cover, lie more than
      thirty minutes apart, and last at most thirty minutes per further event. */
  lemma {:induction false} GreedySplits(ts: seq<int>)
    requires Sorted(ts)
    ensures Split(Greedy(ts), ts)
  {
    if |ts| > 0 {
      hide Split, Next;
      var front, t := ts[..|ts| - 1], ts[|ts| - 1];
      assert ts == front + [t];
      FrontBelow(front, t);
      hide Sorted;
      GreedySplits(front);
      NextSplits(Greedy(front), front, t);
    }
  }

  /** One session covers both events. */
  ghost predicate Together(ss: seq<Session>, t: int, u: int) {
    exists k :: 0 <= k < |ss| && Covers(ss[k], t) && Covers(ss[k], u)
  }

  lemma CloseTogether(ss: seq<Session>, t: int, u: int)
    requires Apart(ss) && Covered(ss, t) && Covered(ss, u) && 0 <= u - t <= GAP
    requires forall k :: 0 <= k < |ss| ==> ss[k].start <= ss[k].end
    ensures Together(ss, t, u)
  {
    var k :| 0 <= k < |ss| && Covers(ss[k], t);
    var l :| 0 <= l < |ss| && Covers(ss[l], u);
    assert !(k < l) && !(l < k);
  }

  lemma SplitFacts(ss: seq<Session>, ts: seq<int>, i: nat)
    requires Sorted(ts) && Split(ss, ts) && i + 1 < |ts|
    ensures Apart(ss) && Covered(ss, ts[i]) && Covered(ss, ts[i + 1]) && ts[i] <= ts[i + 1]
    ensures forall k :: 0 <= k < |ss| ==> ss[k].start <= ss[k].end
  {
    assert ts[i] in ts && ts[i + 1] in ts;
  }

  /** Neighbouring events share a session exactly when at most thirty minutes
      separate them. */
  lemma SameSessionIff(ts: seq<int>, i: nat)
    requires Sorted(ts) && i + 1 < |ts|
    ensures Together(QuerySessions(ts), ts[i], ts[i + 1]) <==> ts[i + 1] - ts[i] <= GAP
  {
    hide QuerySessions, Greedy, Apart, Covered, Together, Split, Sorted, LastKey, SessionId, Labels;
    QueryIsGreedy(ts);
    GreedySplits(ts);
    SplitFacts(Greedy(ts), ts, i);
    if ts[i + 1] - ts[i] <= GAP {
      CloseTogether(Greedy(ts), ts[i], ts[i + 1]);
    } else {
      NoBridge(ts, i);
    }
  }

  lemma NextBridges(s: seq<Session>, front: seq<int>, t: int, i: nat)
    requires Sorted(front + [t]) && Split(s, front) && i < |front|
    requires (front + [t])[i + 1] - front[i] > GAP
    requires i + 1 < |front| ==> !Together(s, front[i], front[i + 1])
    ensures !Together(Next(s, front, t), front[i], (front + [t])[i + 1])
  {
    FrontBelow(front, t);
    hide Sorted, Counts, Short, Apart, AllCovered, Together;
    if i + 1 == |front| {
      EndsBefore(s, front, t);
    } else if t - front[|front| - 1] <= GAP {
      StillApart(s, s[|s| - 1].(end := t, count := s[|s| - 1].count + 1), front[i], front[i + 1]);
    } else {
      NewApart(s, Session(t, t, 1), front[i], front[i + 1]);
    }
  }

  /** No session spans a gap of more than thirty minutes. */
  lemma {:induction false} NoBridge(ts: seq<int>, i: nat)
    requires Sorted(ts) && i + 1 < |ts| && ts[i + 1] - ts[i] > GAP
    ensures !Together(Greedy(ts), ts[i], ts[i + 1])
  {
    hide Split, Together, Next;
    var front, t := ts[..|ts| - 1], ts[|ts| - 1];
    assert ts == front + [t];
    FrontBelow(front, t);
    hide Sorted;
    GreedySplits(front);
    if i + 1 < |front| { NoBridge(front, i); }
    NextBridges(Greedy(front), front, t, i);
  }

  lemma StillApart(s: seq<Session>, grown: Session, t: int, u: int)
    requires |s| > 0 && !Together(s, t, u) && grown.start == s[|s| - 1].start
    requires t <= u <= s[|s| - 1].end
    ensures !Together(s[..|s| - 1] + [grown], t, u)
  {
    forall k | 0 <= k < |s| ensures !(Covers(s[k], t) && Covers(s[k], u)) { }
  }

  lemma NewApart(s: seq<Session>, added: Session, t: int, u: int)
    requires !Together(s, t, u) && t < added.start
    ensures !Together(s + [added], t, u)
  {
    forall k | 0 <= k < |s| ensures !(Covers(s[k], t) && Covers(s[k], u)) { }
  }

  lemma EndsBefore(s: seq<Session>, front: seq<int>, t: int)
    requires Endpoints(s, front) && |front| > 0 && t - front[|front| - 1] > GAP
    requires forall x :: x in front ==> x <= front[|front| - 1]
    ensures !Together(s + [Session(t, t, 1)], front[|front| - 1], t)
  {
    var r := s + [Session(t, t, 1)];
    forall k | 0 <= k < |r| ensures !(Covers(r[k], front[|front| - 1]) && Covers(r[k], t)) {
      if k < |s| { assert r[k] == s[k]; }
    }
  }

  // ----- whole tables

  function WhoOf(r: Row): Who { Who(r.identifier, r.service) }

  function TimesOf(rows: seq<Row>): seq<int> {
    seq(|rows|, i requires 0 <= i < |rows| => rows[i].timestamp)
  }

  /** The window function's view of one partition. */
  function Partition(rows: seq<Row>, who: Who): seq<int> {
    Ascending(TimesOf(Group(WhoOf, who, rows)))
  }

  datatype Result = Result(who: Who, session: Session)

  function Tagged(who: Who, ss: seq<Session>): seq<Result> {
    seq(|ss|, i requires 0 <= i < |ss| => Result(who, ss[i]))
  }

  function PerWho(whos: seq<Who>, rows: seq<Row>): seq<Result> {
    if |whos| == 0 then []
    else
      var w := whos[|whos| - 1];
      PerWho(whos[..|whos| - 1], rows) + Tagged(w, QuerySessions(Partition(rows, w)))
  }

  /** The query before its ORDER BY and LIMIT. */
  function GetSessions(table: seq<Row>, f: Filters, now: int): seq<Result> {
    var rows := Filter(Selected(f, now), table);
    PerWho(Keys(WhoOf, rows), rows)
  }

  function TotalCount(rs: seq<Result>): int {
    if |rs| == 0 then 0 else TotalCount(rs[..|rs| - 1]) + rs[|rs| - 1].session.count
  }

  function SumCounts(ss: seq<Session>): int {
    if |ss| == 0 then 0 else SumCounts(ss[..|ss| - 1]) + ss[|ss| - 1].count
  }

  lemma {:induction false} GreedyCounts(ts: seq<int>)
    ensures SumCounts(Greedy(ts)) == |ts|
  {
    if |ts| > 0 {
      var front, t := ts[..|ts| - 1], ts[|ts| - 1];
      var s, r := Greedy(front), Greedy(ts);
      GreedyCounts(front);
      if |front| > 0 && t - front[|front| - 1] <= GAP {
        assert r[..|r| - 1] == s[..|s| - 1];
      } else {
        assert r[..|r| - 1] == s;
      }
    }
  }

  lemma {:induction false} TotalTagged(rs: seq<Result>, who: Who, ss: seq<Session>)
    ensures TotalCount(rs + Tagged(who, ss)) == TotalCount(rs) + SumCounts(ss)
  {
    if |ss| == 0 {
      assert rs + Tagged(who, ss) == rs;
    } else {
      TotalTagged(rs, who, ss[..|ss| - 1]);
      var all := rs + Tagged(who, ss);
      assert all[..|all| - 1] == rs + Tagged(who, ss[..|ss| - 1]);
    }
  }

  lemma PartitionCounts(rows: seq<Row>, who: Who)
    ensures SumCounts(QuerySessions(Partition(rows, who))) == |Group(WhoOf, who, rows)|
  {
    var ts := TimesOf(Group(WhoOf, who, rows));
    AscendingPermutes(ts);
    AscendingSorted(ts);
    QueryIsGreedy(Ascending(ts));
    GreedyCounts(Ascending(ts));
  }

  function OneEach(): Row -> Totals { (r: Row) => ZERO.(events := 1) }

  lemma {:induction false} SumOnes(rows: seq<Row>)
    ensures Sum(OneEach(), rows).events == |rows|
  {
    if |rows| > 0 { SumOnes(rows[..|rows| - 1]); }
  }

  lemma PerWhoUnfolds(whos: seq<Who>, rows: seq<Row>)
    ensures |whos| == 0 ==>
              TotalCount(PerWho(whos, rows)) == 0 && KeyedSum(WhoOf, OneEach(), whos, rows).events == 0
    ensures |whos| > 0 ==>
              var (front, w) := (whos[..|whos| - 1], whos[|whos| - 1]);
              && PerWho(whos, rows) == PerWho(front, rows) + Tagged(w, QuerySessions(Partition(rows, w)))
              && KeyedSum(WhoOf, OneEach(), whos, rows).events ==
                 KeyedSum(WhoOf, OneEach(), front, rows).events + Sum(OneEach(), Group(WhoOf, w, rows)).events
  {
    hide Tagged, QuerySessions, Partition, Sum, Group, OneEach;
  }

  lemma {:induction false} PerWhoCounts(whos: seq<Who>, rows: seq<Row>)
    ensures TotalCount(PerWho(whos, rows)) == KeyedSum(WhoOf, OneEach(), whos, rows).events
  {
    hide *;
    PerWhoUnfolds(whos, rows);
    if |whos| > 0 {
      var w := whos[|whos| - 1];
      PerWhoCounts(whos[..|whos| - 1], rows);
      TotalTagged(PerWho(whos[..|whos| - 1], rows), w, QuerySessions(Partition(rows, w)));
      PartitionCounts(rows, w);
      SumOnes(Group(WhoOf, w, rows));
    }
  }

  /** Every selected event is counted in exactly one session. */
  lemma SessionsPartitionEvents(table: seq<Row>, f: Filters, now: int)
    ensures TotalCount(GetSessions(table, f, now)) == |Filter(Selected(f, now), table)|
  {
    var rows := Filter(Selected(f, now), table);
    PerWhoCounts(Keys(WhoOf, rows), rows);
    KeysProperty(WhoOf, rows);
    KeyedSumTotal(WhoOf, OneEach(), Keys(WhoOf, rows), rows);
    SumOnes(rows);
  }

  /** Of one identifier and service, the sessions are what the splitter makes of
      the ascending timestamps, with all that follows from it. */
  lemma PartitionIsSplit(rows: seq<Row>, who: Who)
    ensures var ts := Partition(rows, who);
            QuerySessions(ts) == Greedy(ts) && Split(QuerySessions(ts), ts) && Anchored(QuerySessions(ts), ts)
    ensures multiset(Partition(rows, who)) == multiset(TimesOf(Group(WhoOf, who, rows)))
  {
    var ts := TimesOf(Group(WhoOf, who, rows));
    AscendingPermutes(ts);
    AscendingSorted(ts);
    QueryIsGreedy(Ascending(ts));
    GreedySplits(Ascending(ts));
    GreedyAnchored(Ascending(ts));
  }

  lemma {:induction false} PerWhoMembers(whos: seq<Who>, rows: seq<Row>, res: Result)
    ensures res in PerWho(whos, rows) <==>
            res.who in whos && res.session in QuerySessions(Partition(rows, res.who))
  {
    if |whos| > 0 {
      var front, w := whos[..|whos| - 1], whos[|whos| - 1];
      hide QuerySessions, Partition;
      assert whos == front + [w];
      PerWhoMembers(front, rows, res);
      TaggedMembers(w, QuerySessions(Partition(rows, w)), res);
    }
  }

  lemma TaggedMembers(who: Who, ss: seq<Session>, res: Result)
    ensures res in Tagged(who, ss) <==> res.who == who && res.session in ss
  {
    if res.who == who && res.session in ss {
      var i :| 0 <= i < |ss| && ss[i] == res.session;
      assert Tagged(who, ss)[i] == res;
    }
  }

  /** The result set of the whole query: for every identifier and service with a
      selected event, the greedy sessions of its selected events, no others. */
  lemma GetSessionsIsGreedy(table: seq<Row>, f: Filters, now: int, res: Result)
    ensures var rows := Filter(Selected(f, now), table);
            res in GetSessions(table, f, now) <==>
            (exists r :: r in rows && WhoOf(r) == res.who) && res.session in Greedy(Partition(rows, res.who))
  {
    var rows := Filter(Selected(f, now), table);
    PerWhoMembers(Keys(WhoOf, rows), rows, res);
    PartitionIsSplit(rows, res.who);
    KeysProperty(WhoOf, rows);
    hide Partition, QuerySessions, Greedy, Selected, Filter, Keys, PerWho;
  }

  lemma {:induction false} TimesMultiset(rows: seq<Row>, who: Who, t: int)
    ensures multiset(TimesOf(Group(WhoOf, who, rows)))[t] == CountRows(rows, who, t)
  {
    if |rows| > 0 {
      var front, r := rows[..|rows| - 1], rows[|rows| - 1];
      assert rows == front + [r];
      TimesMultiset(front, who, t);
      FilterLast(HasKey(WhoOf, who), front, r);
      if WhoOf(r) == who {
        assert TimesOf(Group(WhoOf, who, rows)) == TimesOf(Group(WhoOf, who, front)) + [r.timestamp];
      }
    }
  }

  function CountRows(rows: seq<Row>, who: Who, t: int): nat {
    if |rows| == 0 then 0
    else CountRows(rows[..|rows| - 1], who, t) + if WhoOf(rows[|rows| - 1]) == who && rows[|rows| - 1].timestamp == t then 1 else 0
  }

  lemma {:induction false} CountRowsRemove(rows: seq<Row>, i: nat, who: Who, t: int)
    requires i < |rows|
    ensures CountRows(rows, who, t) == CountRows(rows[..i] + rows[i + 1..], who, t) +
                                       if WhoOf(rows[i]) == who && rows[i].timestamp == t then 1 else 0
  {
    if i == |rows| - 1 {
      assert rows[..i] + rows[i + 1..] == rows[..|rows| - 1];
    } else {
      var front, r := rows[..|rows| - 1], rows[|rows| - 1];
      CountRowsRemove(front, i, who, t);
      assert (rows[..i] + rows[i + 1..])[..|rows| - 2] == front[..i] + front[i + 1..];
    }
  }

  lemma {:induction false} CountRowsPermuted(a: seq<Row>, b: seq<Row>, who: Who, t: int)
    requires multiset(a) == multiset(b)
    ensures CountRows(a, who, t) == CountRows(b, who, t)
  {
    if |a| == 0 {
      assert |multiset(b)| == |b|;
    } else {
      var front, last := a[..|a| - 1], a[|a| - 1];
      assert a == front + [last];
      assert last in multiset(b);
      var i :| 0 <= i < |b| && b[i] == last;
      assert b == b[..i] + [last] + b[i + 1..];
      assert multiset(b[..i] + b[i + 1..]) == multiset(b) - multiset{last};
      assert multiset(front) == multiset(a) - multiset{last};
      CountRowsPermuted(front, b[..i] + b[i + 1..], who, t);
      CountRowsRemove(b, i, who, t);
    }
  }

  /** Neither the stored order of the rows nor the order among tied timestamps
      can change a partition's sessions. */
  lemma StoredOrderIsIrrelevant(a: seq<Row>, b: seq<Row>, who: Who)
    requires multiset(a) == multiset(b)
    ensures QuerySessions(Partition(a, who)) == QuerySessions(Partition(b, who))
  {
    var x, y := TimesOf(Group(WhoOf, who, a)), TimesOf(Group(WhoOf, who, b));
    forall t ensures multiset(x)[t] == multiset(y)[t] {
      TimesMultiset(a, who, t);
      TimesMultiset(b, who, t);
      CountRowsPermuted(a, b, who, t);
    }
    assert multiset(x) == multiset(y);
    AscendingOfPermutation(x, y);
  }
}
