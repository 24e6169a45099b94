/** What the history counts, request by request: the summaries are read at one
    moment of a run and the raw rows at a later one. */
module TieringReads {
  import opened Rows
  import opened Tiers
  import opened TieringHistory
  import opened TieringRun
  import TieringLaws

  /** What the two reads meet of one request: its hour row and its day row at the
      first, its raw row at the second. */
  datatype Sight = Sight(audit: Audit, hour: bool, day: bool, raw: bool)

  /** The later fates extend the earlier ones. */
  ghost predicate Extends(early: seq<Fate>, late: seq<Fate>) {
    |early| <= |late| && forall i :: 0 <= i < |early| ==> early[i].audit == late[i].audit
  }

  function Sights(early: seq<Fate>, late: seq<Fate>): seq<Sight> {
    seq(|late|, i requires 0 <= i < |late| =>
      Sight(late[i].audit, i < |early| && early[i].hour, i < |early| && early[i].day, late[i].raw))
  }

  lemma MovedAudits(st: State, step: Step)
    ensures Extends(st.fates, Apply(st, step).fates)
  {
    var moved := Mapped(Move(KeySet(st.db.summaries), step), st.fates);
    forall i | 0 <= i < |st.fates| ensures moved[i].audit == st.fates[i].audit {
      MoveKeepsAudit(KeySet(st.db.summaries), step, st.fates[i]);
    }
    hide Move, KeySet, Execute;
  }

  lemma ExtendsOn(a: seq<Fate>, b: seq<Fate>, c: seq<Fate>)
    requires Extends(a, b) && Extends(b, c)
    ensures Extends(a, c)
  {
  }

  lemma {:induction false} RunExtends(first: seq<Step>, later: seq<Step>)
    ensures Extends(Run(first).fates, Run(first + later).fates)
  {
    if |later| == 0 {
      assert first + later == first;
    } else {
      var steps, front := first + later, first + later[..|later| - 1];
      assert steps[..|steps| - 1] == front;
      assert Run(steps) == Apply(Run(front), steps[|steps| - 1]);
      hide Run, Apply, Extends;
      RunExtends(first, later[..|later| - 1]);
      MovedAudits(Run(front), steps[|steps| - 1]);
      ExtendsOn(Run(first).fates, Run(front).fates, Run(steps).fates);
    }
  }

  // ----- the three shares

  function HourShare(sel: Choice): Sight -> Totals {
    (s: Sight) => if s.hour && sel(HourKey(s.audit)) then AuditTotals(s.audit) else ZERO
  }

  function DayShare(sel: Choice): Sight -> Totals {
    (s: Sight) => if s.day && sel(AuditDay(s.audit)) then AuditTotals(s.audit) else ZERO
  }

  /** The raw rows of the query whose hour no summary claims. */
  function RawShare(q: Query, seen: set<int>): Sight -> Totals {
    (s: Sight) => if s.raw then VisibleIn(q, seen)(s.audit) else ZERO
  }

  lemma SightLast(early: seq<Fate>, late: seq<Fate>)
    requires Extends(early, late) && |late| > 0
    ensures var (n, front) := (|late| - 1, late[..|late| - 1]);
            Sights(early, late) ==
            if |early| == |late| then Sights(early[..n], front) + [Sight(late[n].audit, early[n].hour, early[n].day, late[n].raw)]
            else Sights(early, front) + [Sight(late[n].audit, false, false, late[n].raw)]
  {
  }

  lemma {:induction false} EarlyShares(sel: Choice, early: seq<Fate>, late: seq<Fate>)
    requires Extends(early, late)
    ensures Sum(HourShare(sel), Sights(early, late)) == Sum(HourFate(sel), early)
    ensures Sum(DayShare(sel), Sights(early, late)) == Sum(DayFate(sel), early)
    decreases |late|
  {
    if |late| > 0 {
      var (n, front) := (|late| - 1, late[..|late| - 1]);
      SightLast(early, late);
      if |early| == |late| {
        var last := Sight(late[n].audit, early[n].hour, early[n].day, late[n].raw);
        EarlyShares(sel, early[..n], front);
        assert early == early[..n] + [early[n]];
        SumLast(HourShare(sel), Sights(early[..n], front), last);
        SumLast(DayShare(sel), Sights(early[..n], front), last);
        SumLast(HourFate(sel), early[..n], early[n]);
        SumLast(DayFate(sel), early[..n], early[n]);
        assert HourShare(sel)(last) == HourFate(sel)(early[n]) && DayShare(sel)(last) == DayFate(sel)(early[n]);
      } else {
        var last := Sight(late[n].audit, false, false, late[n].raw);
        EarlyShares(sel, early, front);
        SumLast(HourShare(sel), Sights(early, front), last);
        SumLast(DayShare(sel), Sights(early, front), last);
        PlusMoves(ZERO, Sum(HourFate(sel), early), ZERO);
        PlusMoves(ZERO, Sum(DayFate(sel), early), ZERO);
      }
    }
  }

  function RawSeen(q: Query, seen: set<int>): Fate -> Totals {
    (f: Fate) => if f.raw then VisibleIn(q, seen)(f.audit) else ZERO
  }

  lemma {:induction false} LateShare(q: Query, seen: set<int>, early: seq<Fate>, late: seq<Fate>)
    requires Extends(early, late)
    ensures Sum(RawShare(q, seen), Sights(early, late)) == Sum(RawSeen(q, seen), late)
    decreases |late|
  {
    if |late| > 0 {
      var (n, front) := (|late| - 1, late[..|late| - 1]);
      var rest := if |early| == |late| then early[..n] else early;
      SightLast(early, late);
      LateShare(q, seen, rest, front);
      assert late == front + [late[n]];
      var sights := Sights(early, late);
      assert sights == Sights(rest, front) + [sights[n]];
      SumLast(RawShare(q, seen), Sights(rest, front), sights[n]);
      SumLast(RawSeen(q, seen), front, late[n]);
      hide VisibleIn;
    }
  }

  lemma RawRead(q: Query, seen: set<int>, st: State)
    requires Tracked(st)
    ensures Sum(VisibleIn(q, seen), st.db.audits) == Sum(RawSeen(q, seen), st.fates)
  {
    var v := (f: Fate) => VisibleIn(q, seen)(f.audit);
    SumMapped(VisibleIn(q, seen), AuditOf(), v, Filter(IsRaw(), st.fates));
    SumFilter(v, IsRaw(), RawSeen(q, seen), st.fates);
  }

  /** The buckets of a query. */
  function ForQuery(q: Query): Choice { (k: Key) => Matches(q, k.project, k.service, k.start) }

  lemma QuerySummaries(q: Query, rows: seq<Summary>)
    ensures Sum(SummaryIn(q), rows) == Plus(Sum(HourWeight(ForQuery(q)), rows), Sum(DayWeight(ForQuery(q)), rows))
  {
    forall r | r in rows ensures SummaryIn(q)(r) == Plus(HourWeight(ForQuery(q))(r), DayWeight(ForQuery(q))(r)) {
      assert ForQuery(q)(r.key) == SummaryMatches(q, r);
      hide SummaryTotals, Matches;
    }
    SumSplit(SummaryIn(q), HourWeight(ForQuery(q)), DayWeight(ForQuery(q)), rows);
  }

  lemma ReadsShow(q: Query, first: State, second: State)
    requires Tracked(first) && Held(first, ForQuery(q)) && Tracked(second) && Extends(first.fates, second.fates)
    ensures var (seen, sights) := (Starts(SummaryPoints(first.db, q)), Sights(first.fates, second.fates));
            HistoryTotals(first.db, second.db, q) ==
            Shown(Plus(Plus(Sum(HourShare(ForQuery(q)), sights), Sum(DayShare(ForQuery(q)), sights)), Sum(RawShare(q, seen), sights)))
  {
    var (seen, sel) := (Starts(SummaryPoints(first.db, q)), ForQuery(q));
    assert Valid(first.db);
    HeldMeans(first, sel);
    hide *;
    HistorySplits(first.db, second.db, q);
    QuerySummaries(q, first.db.summaries);
    EarlyShares(sel, first.fates, second.fates);
    LateShare(q, seen, first.fates, second.fates);
    RawRead(q, seen, second);
    ShownSplits(Sum(SummaryIn(q), first.db.summaries), Sum(RawSeen(q, seen), second.fates));
  }

  lemma ShownSplits(x: Totals, y: Totals)
    ensures Plus(Shown(x), Shown(y)) == Shown(Plus(x, y))
  {
  }

  /** What a reader adds up, in any run and for any range: each request as often
      as the first read meets it in a row of the range, and once more if the second
      meets it raw in the range with no summary at the start of its hour. */
  lemma HistoryShows(first: seq<Step>, later: seq<Step>, q: Query)
    ensures var (a, b) := (Run(first), Run(first + later));
            var (seen, sights) := (Starts(SummaryPoints(a.db, q)), Sights(a.fates, b.fates));
            HistoryTotals(a.db, b.db, q) ==
            Shown(Plus(Plus(Sum(HourShare(ForQuery(q)), sights), Sum(DayShare(ForQuery(q)), sights)), Sum(RawShare(q, seen), sights)))
  {
    RunTracks(first);
    RunTracks(first + later);
    FatesHold(ForQuery(q), first);
    RunExtends(first, later);
    hide *;
    ReadsShow(q, Run(first), Run(first + later));
  }

  // ----- whole days

  /** A request of a whole-day query is one of its hour's bucket, and of its day's. */
  lemma QueryBuckets(q: Query, a: Audit)
    requires Aligned(q) && Tierable(a)
    ensures ForQuery(q)(HourKey(a)) <==> AuditMatches(q, a)
    ensures ForQuery(q)(AuditDay(a)) <==> AuditMatches(q, a)
  {
    DayWithin(a.timestamp, q.from);
    DayWithin(a.timestamp, q.to);
    HourWithin(a.timestamp, q.from);
    HourWithin(a.timestamp, q.to);
    DayWithin(TruncHour(a.timestamp), q.from);
    DayWithin(TruncHour(a.timestamp), q.to);
  }

  /** The raw row of a sight is shown. */
  predicate RawShown(seen: set<int>, s: Sight) { s.raw && TruncHour(s.audit.timestamp) !in seen }

  /** A request of the query the history does not show. */
  predicate Hidden(q: Query, seen: set<int>, s: Sight) {
    AuditMatches(q, s.audit) && !s.hour && !s.day && !RawShown(seen, s)
  }

  /** A request of the query the history counts raw and behind a row. */
  predicate RawAgain(q: Query, seen: set<int>, s: Sight) {
    AuditMatches(q, s.audit) && RawShown(seen, s) && (s.hour || s.day)
  }

  /** A request of the query the history counts behind both its rows. */
  predicate BothRows(q: Query, s: Sight) { AuditMatches(q, s.audit) && s.hour && s.day }

  predicate Repeated(q: Query, seen: set<int>, s: Sight) { RawAgain(q, seen, s) || BothRows(q, s) }

  function HiddenShare(q: Query, seen: set<int>): Sight -> Totals {
    (s: Sight) => When(Hidden(q, seen, s), AuditTotals(s.audit))
  }

  function RawAgainShare(q: Query, seen: set<int>): Sight -> Totals {
    (s: Sight) => When(RawAgain(q, seen, s), AuditTotals(s.audit))
  }

  function BothRowsShare(q: Query): Sight -> Totals { (s: Sight) => When(BothRows(q, s), AuditTotals(s.audit)) }

  /** What the history counts too often. */
  function Excess(q: Query, seen: set<int>, sights: seq<Sight>): Totals {
    Plus(Sum(RawAgainShare(q, seen), sights), Sum(BothRowsShare(q), sights))
  }

  function ArrivedShare(q: Query): Sight -> Totals { (s: Sight) => AuditIn(q)(s.audit) }

  ghost predicate SightOk(s: Sight) { (s.hour || s.day) ==> Tierable(s.audit) }

  lemma RowShares(q: Query, s: Sight)
    requires Aligned(q) && SightOk(s)
    ensures HourShare(ForQuery(q))(s) == When(s.hour, When(AuditMatches(q, s.audit), AuditTotals(s.audit)))
    ensures DayShare(ForQuery(q))(s) == When(s.day, When(AuditMatches(q, s.audit), AuditTotals(s.audit)))
  {
    if s.hour || s.day { QueryBuckets(q, s.audit); }
    hide AuditTotals, Tierable, HourKey, AuditDay, AuditMatches, ForQuery, Aligned;
  }

  lemma RawShares(q: Query, seen: set<int>, s: Sight)
    ensures RawShare(q, seen)(s) == When(RawShown(seen, s), When(AuditMatches(q, s.audit), AuditTotals(s.audit)))
    ensures ArrivedShare(q)(s) == When(AuditMatches(q, s.audit), AuditTotals(s.audit))
  {
    assert AuditIn(q)(s.audit) == When(AuditMatches(q, s.audit), AuditTotals(s.audit));
    assert VisibleIn(q, seen)(s.audit) ==
           When(AuditMatches(q, s.audit) && TruncHour(s.audit.timestamp) !in seen, AuditTotals(s.audit));
    hide AuditTotals, AuditMatches, TruncHour, AuditIn, VisibleIn;
  }

  lemma ExtraShares(q: Query, seen: set<int>, s: Sight)
    ensures var (t, r) := (When(AuditMatches(q, s.audit), AuditTotals(s.audit)), RawShown(seen, s));
            && HiddenShare(q, seen)(s) == When(!r && !s.hour && !s.day, t)
            && RawAgainShare(q, seen)(s) == When(r && (s.hour || s.day), t)
            && BothRowsShare(q)(s) == When(s.hour && s.day, t)
  {
    hide AuditTotals, AuditMatches, RawShown;
  }

  lemma ShareBalances(q: Query, seen: set<int>, s: Sight)
    requires Aligned(q) && SightOk(s)
    ensures Plus(Plus(RawShare(q, seen)(s), Plus(HourShare(ForQuery(q))(s), DayShare(ForQuery(q))(s))), HiddenShare(q, seen)(s)) ==
            Plus(ArrivedShare(q)(s), Plus(RawAgainShare(q, seen)(s), BothRowsShare(q)(s)))
  {
    hide *;
    RowShares(q, s);
    RawShares(q, seen, s);
    ExtraShares(q, seen, s);
    FlagsBalance(RawShown(seen, s), s.hour, s.day, When(AuditMatches(q, s.audit), AuditTotals(s.audit)));
  }

  lemma SharesBalance(q: Query, seen: set<int>, sights: seq<Sight>)
    requires Aligned(q) && forall s :: s in sights ==> SightOk(s)
    ensures Plus(Plus(Plus(Sum(HourShare(ForQuery(q)), sights), Sum(DayShare(ForQuery(q)), sights)), Sum(RawShare(q, seen), sights)),
                 Sum(HiddenShare(q, seen), sights)) ==
            Plus(Sum(ArrivedShare(q), sights), Excess(q, seen, sights))
  {
    var summed := (s: Sight) => Plus(HourShare(ForQuery(q))(s), DayShare(ForQuery(q))(s));
    var shown := (s: Sight) => Plus(RawShare(q, seen)(s), summed(s));
    var extra := (s: Sight) => Plus(RawAgainShare(q, seen)(s), BothRowsShare(q)(s));
    var all := (s: Sight) => Plus(shown(s), HiddenShare(q, seen)(s));
    forall s | s in sights ensures all(s) == Plus(ArrivedShare(q)(s), extra(s)) { ShareBalances(q, seen, s); }
    hide HourShare, DayShare, RawShare, HiddenShare, RawAgainShare, BothRowsShare, ArrivedShare, Sum, Plus, ForQuery;
    SumSplit(summed, HourShare(ForQuery(q)), DayShare(ForQuery(q)), sights);
    SumSplit(shown, RawShare(q, seen), summed, sights);
    SumSplit(all, shown, HiddenShare(q, seen), sights);
    SumSplit(extra, RawAgainShare(q, seen), BothRowsShare(q), sights);
    SumSplit(all, ArrivedShare(q), extra, sights);
    PlusMoves(Sum(RawShare(q, seen), sights), Sum(summed, sights), ZERO);
  }

  lemma SightsOk(first: State, second: State)
    requires Tracked(first) && Extends(first.fates, second.fates)
    ensures forall s :: s in Sights(first.fates, second.fates) ==> SightOk(s)
  {
    var sights := Sights(first.fates, second.fates);
    forall s | s in sights ensures SightOk(s) {
      var i :| 0 <= i < |sights| && sights[i] == s;
      if s.hour || s.day { assert first.fates[i] in first.fates; }
    }
    hide Tierable, Valid, HourKey, AuditDay;
  }

  /** The sights of the two reads of a run. */
  function SightsOf(first: seq<Step>, later: seq<Step>): seq<Sight> { Sights(Run(first).fates, Run(first + later).fates) }

  function SeenIn(first: seq<Step>, q: Query): set<int> { Starts(SummaryPoints(Run(first).db, q)) }

  /** The history of a run: summaries after the first steps, raw rows after the
      later ones too. */
  function HistoryOf(first: seq<Step>, later: seq<Step>, q: Query): Totals {
    HistoryTotals(Run(first).db, Run(first + later).db, q)
  }

  /** What arrived for the query by the second read. */
  function ArrivedIn(first: seq<Step>, later: seq<Step>, q: Query): Totals {
    Sum(AuditIn(q), Arrived(Run(first + later)))
  }

  lemma ArrivedSum(q: Query, early: seq<Fate>, late: seq<Fate>)
    ensures Sum(ArrivedShare(q), Sights(early, late)) == Sum(AuditIn(q), Mapped(AuditOf(), late))
  {
    var of := (s: Sight) => s.audit;
    SumMapped(AuditIn(q), of, ArrivedShare(q), Sights(early, late));
    assert Mapped(of, Sights(early, late)) == Mapped(AuditOf(), late);
  }

  /** The exact account over whole days: the points, and the hidden requests, are
      those that arrived in the range, and once more the repeated ones. */
  lemma HistoryAccount(first: seq<Step>, later: seq<Step>, q: Query)
    requires Aligned(q) && q.project != ""
    ensures var (seen, sights) := (SeenIn(first, q), SightsOf(first, later));
            Plus(HistoryOf(first, later, q), Shown(Sum(HiddenShare(q, seen), sights))) ==
            Plus(Shown(ArrivedIn(first, later, q)), Shown(Excess(q, seen, sights)))
  {
    RunTracks(first);
    RunExtends(first, later);
    ArrivedSum(q, Run(first).fates, Run(first + later).fates);
    SightsOk(Run(first), Run(first + later));
    HistoryShows(first, later, q);
    var (seen, sights) := (SeenIn(first, q), SightsOf(first, later));
    var shown := Plus(Plus(Sum(HourShare(ForQuery(q)), sights), Sum(DayShare(ForQuery(q)), sights)), Sum(RawShare(q, seen), sights));
    assert HistoryOf(first, later, q) == Shown(shown);
    hide *;
    SharesBalance(q, seen, sights);
    ShownSplits(shown, Sum(HiddenShare(q, seen), sights));
    ShownSplits(Sum(ArrivedShare(q), sights), Excess(q, seen, sights));
  }

  // ----- exactly when the history is exact

  /** A sum of requests: nothing, or at least one event. */
  ghost predicate Counts(t: Totals) { 0 <= t.events && (t.events == 0 ==> t == ZERO) }

  lemma WhenNoneIff(p: Sight -> bool, v: Sight -> Totals, sights: seq<Sight>)
    requires forall s :: v(s) == When(p(s), AuditTotals(s.audit))
    ensures Counts(Sum(v, sights))
    ensures Sum(v, sights).events == 0 <==> forall s :: s in sights ==> !p(s)
  {
    var w := (s: Sight) => AuditTotals(s.audit);
    var of := (s: Sight) => s.audit;
    hide AuditTotals;
    SumFilter(w, p, v, sights);
    SumMapped(AuditTotals, of, w, Filter(p, sights));
    AuditSums(Mapped(of, Filter(p, sights)));
    TieringLaws.BlockedNoneIff(p, sights);
  }

  lemma HiddenNoneIff(q: Query, seen: set<int>, sights: seq<Sight>)
    ensures Counts(Sum(HiddenShare(q, seen), sights))
    ensures Sum(HiddenShare(q, seen), sights).events == 0 <==> NoneHidden(q, seen, sights)
  {
    var p := (s: Sight) => Hidden(q, seen, s);
    hide Hidden, AuditTotals, When, Sum, Counts;
    WhenNoneIff(p, HiddenShare(q, seen), sights);
  }

  lemma RawAgainNoneIff(q: Query, seen: set<int>, sights: seq<Sight>)
    ensures Counts(Sum(RawAgainShare(q, seen), sights))
    ensures Sum(RawAgainShare(q, seen), sights).events == 0 <==> forall s :: s in sights ==> !RawAgain(q, seen, s)
  {
    var p := (s: Sight) => RawAgain(q, seen, s);
    hide RawAgain, AuditTotals, When, Sum, Counts;
    WhenNoneIff(p, RawAgainShare(q, seen), sights);
  }

  lemma BothRowsNoneIff(q: Query, sights: seq<Sight>)
    ensures Counts(Sum(BothRowsShare(q), sights))
    ensures Sum(BothRowsShare(q), sights).events == 0 <==> forall s :: s in sights ==> !BothRows(q, s)
  {
    var p := (s: Sight) => BothRows(q, s);
    hide BothRows, AuditTotals, When, Sum, Counts;
    WhenNoneIff(p, BothRowsShare(q), sights);
  }

  lemma PlusCounts(x: Totals, y: Totals)
    requires Counts(x) && Counts(y)
    ensures Counts(Plus(x, y)) && (Plus(x, y).events == 0 <==> x.events == 0 && y.events == 0)
  {
    assert Plus(x, y).events == x.events + y.events;
    if x.events == 0 && y.events == 0 {
      assert x == ZERO && y == ZERO;
      PlusMoves(ZERO, ZERO, ZERO);
      hide Counts, Plus;
    }
  }

  lemma ExcessNoneIff(q: Query, seen: set<int>, sights: seq<Sight>)
    ensures Counts(Excess(q, seen, sights))
    ensures Excess(q, seen, sights).events == 0 <==> NoneRepeated(q, seen, sights)
  {
    hide RawAgain, BothRows, RawAgainShare, BothRowsShare, Sum, Counts, Plus;
    RawAgainNoneIff(q, seen, sights);
    BothRowsNoneIff(q, sights);
    PlusCounts(Sum(RawAgainShare(q, seen), sights), Sum(BothRowsShare(q), sights));
  }

  lemma ShownCancels(held: Totals, hidden: Totals, arrived: Totals)
    requires Plus(held, Shown(hidden)) == arrived && Counts(hidden)
    ensures held == arrived <==> hidden.events == 0
  {
  }

  lemma ShownNothing(t: Totals, x: Totals)
    requires Counts(t) && t.events == 0
    ensures Plus(x, Shown(t)) == x
  {
  }

  ghost predicate NoneHidden(q: Query, seen: set<int>, sights: seq<Sight>) {
    forall s :: s in sights ==> !Hidden(q, seen, s)
  }

  ghost predicate NoneRepeated(q: Query, seen: set<int>, sights: seq<Sight>) {
    forall s :: s in sights ==> !Repeated(q, seen, s)
  }

  /** When the history repeats no request, it is exact exactly when it hides none. */
  lemma ExactIffNothingHidden(first: seq<Step>, later: seq<Step>, q: Query)
    requires Aligned(q) && q.project != "" && NoneRepeated(q, SeenIn(first, q), SightsOf(first, later))
    ensures HistoryOf(first, later, q) == Shown(ArrivedIn(first, later, q)) <==>
            NoneHidden(q, SeenIn(first, q), SightsOf(first, later))
  {
    hide *;
    var (seen, sights) := (SeenIn(first, q), SightsOf(first, later));
    HistoryAccount(first, later, q);
    HiddenNoneIff(q, seen, sights);
    ExcessNoneIff(q, seen, sights);
    ShownNothing(Excess(q, seen, sights), Shown(ArrivedIn(first, later, q)));
    ShownCancels(HistoryOf(first, later, q), Sum(HiddenShare(q, seen), sights), Shown(ArrivedIn(first, later, q)));
  }

  /** When it hides none, it is exact exactly when it repeats none. */
  lemma ExactIffNothingRepeated(first: seq<Step>, later: seq<Step>, q: Query)
    requires Aligned(q) && q.project != "" && NoneHidden(q, SeenIn(first, q), SightsOf(first, later))
    ensures HistoryOf(first, later, q) == Shown(ArrivedIn(first, later, q)) <==>
            NoneRepeated(q, SeenIn(first, q), SightsOf(first, later))
  {
    hide *;
    var (seen, sights) := (SeenIn(first, q), SightsOf(first, later));
    HistoryAccount(first, later, q);
    HiddenNoneIff(q, seen, sights);
    ExcessNoneIff(q, seen, sights);
    ShownNothing(Sum(HiddenShare(q, seen), sights), HistoryOf(first, later, q));
    ShownCancels(Shown(ArrivedIn(first, later, q)), Excess(q, seen, sights), HistoryOf(first, later, q));
  }
}
