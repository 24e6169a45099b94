/** The points of a history from the project and the range asked for: which rows
    and requests make each of them, and that none is missing.  An hour is
    3_600_000_000 microseconds. */
module TieringPoints {
  import opened Counting
  import opened Options
  import opened Rows
  import opened Tiers
  import opened TieringHistory
  import Columns = TieringColumns
  import Percentile

  // ----- a point and the rows at its slot

  ghost predicate AddsRows(p: HistoryPoint, g: seq<Summary>) {
    && p.count == SumInts(seq(|g|, i requires 0 <= i < |g| => g[i].count))
    && p.errors4 == SumInts(seq(|g|, i requires 0 <= i < |g| => g[i].s4))
    && p.errors5 == SumInts(seq(|g|, i requires 0 <= i < |g| => g[i].s5))
  }

  ghost predicate AveragesRows(p: HistoryPoint, g: seq<Summary>) {
    p.count != 0 ==>
      p.avgMs * p.count as real == SumReals(seq(|g|, i requires 0 <= i < |g| => g[i].avgMs * g[i].count as real))
  }

  ghost predicate LargestOfRows(p: HistoryPoint, g: seq<Summary>) {
    (forall i :: 0 <= i < |g| ==> g[i].p95Ms <= p.p95Ms) && exists i :: 0 <= i < |g| && g[i].p95Ms == p.p95Ms
  }

  /** The point merges the project's stored rows at its start and period. */
  ghost predicate PointOfRows(p: HistoryPoint, rows: seq<Summary>, project: string, from: int, to: int) {
    var b := set i | 0 <= i < |rows| && rows[i].key.project == project && from <= rows[i].key.start < to &&
                     rows[i].key.start == p.slot.start && rows[i].key.period == p.slot.period;
    exists g: seq<Summary> :: |g| > 0 && Picks(rows, b, g) && AddsRows(p, g) && AveragesRows(p, g) && LargestOfRows(p, g)
  }

  /** The numbers of a point made of raw requests. */
  ghost predicate CountsRequests(p: HistoryPoint, g: seq<Audit>) {
    && p.count == |g|
    && p.errors4 == |set i | 0 <= i < |g| && 400 <= g[i].status < 500|
    && p.errors5 == |set i | 0 <= i < |g| && 500 <= g[i].status|
    && p.avgMs * p.count as real == SumInts(seq(|g|, i requires 0 <= i < |g| => g[i].responseMs)) as real
  }

  /** The point counts the project's raw requests of its hour. */
  ghost predicate PointOfRequests(p: HistoryPoint, audits: seq<Audit>, project: string, from: int, to: int) {
    var b := set i | 0 <= i < |audits| && audits[i].eventType == "http" && audits[i].project == Some(project) &&
                     from <= audits[i].timestamp < to && p.slot.start <= audits[i].timestamp < p.slot.start + 3_600_000_000;
    && p.slot.period == Hour && p.slot.start % 3_600_000_000 == 0
    && exists g: seq<Audit> :: |g| > 0 && Picks(audits, b, g) && CountsRequests(p, g) &&
                               p.p95Ms == Percentile.P95(seq(|g|, i requires 0 <= i < |g| => g[i].responseMs))
  }

  ghost predicate NoRowStarts(t: int, rows: seq<Summary>, project: string, from: int, to: int) {
    forall r | r in rows && r.key.project == project && from <= r.key.start < to :: r.key.start != t
  }

  ghost predicate RowShown(r: Summary, points: seq<HistoryPoint>) {
    exists p :: p in points && p.slot.start == r.key.start && p.slot.period == r.key.period
  }

  ghost predicate RequestShown(a: Audit, points: seq<HistoryPoint>) {
    exists p :: p in points && p.slot.start % 3_600_000_000 == 0 && p.slot.start <= a.timestamp < p.slot.start + 3_600_000_000
  }

  /** The history of a project over [from, to): every point is made of the stored
      rows at its slot, or of the raw requests of an hour at whose start no row of
      the range starts; every such row and request has its point. */
  ghost predicate HistoryShown(points: seq<HistoryPoint>, rows: seq<Summary>, audits: seq<Audit>, project: string, from: int, to: int) {
    && (forall p :: p in points ==>
          PointOfRows(p, rows, project, from, to) ||
          (PointOfRequests(p, audits, project, from, to) && NoRowStarts(p.slot.start, rows, project, from, to)))
    && (forall r | r in rows && r.key.project == project && from <= r.key.start < to :: RowShown(r, points))
    && (forall a | a in audits && a.eventType == "http" && a.project == Some(project) && from <= a.timestamp < to ::
          RequestShown(a, points))
  }

  // ----- the summary points

  function RowAt(q: Query, slot: Slot): Summary -> bool {
    (r: Summary) => SlotOf(r) == slot && MatchingSummary(q)(r)
  }

  lemma RowAtGroup(q: Query, slot: Slot, rows: seq<Summary>)
    ensures Group(SlotOf, slot, Filter(MatchingSummary(q), rows)) == Filter(RowAt(q, slot), rows)
  {
    hide SlotOf, MatchingSummary, Filter;
    FilterTwice(HasKey(SlotOf, slot), MatchingSummary(q), RowAt(q, slot), rows);
  }

  lemma RowAtMeans(project: string, from: int, to: int, slot: Slot, r: Summary)
    ensures RowAt(ProjectQuery(project, from, to), slot)(r) <==>
            r.key.project == project && from <= r.key.start < to && r.key.start == slot.start && r.key.period == slot.period
  {
    assert SlotOf(r) == slot <==> r.key.start == slot.start && r.key.period == slot.period;
    assert MatchingSummary(ProjectQuery(project, from, to))(r) <==> r.key.project == project && from <= r.key.start < to;
    hide SlotOf, MatchingSummary;
  }

  lemma RowAtChosen(project: string, from: int, to: int, slot: Slot, rows: seq<Summary>)
    ensures Chosen(RowAt(ProjectQuery(project, from, to), slot), rows) ==
            set i | 0 <= i < |rows| && rows[i].key.project == project && from <= rows[i].key.start < to &&
                    rows[i].key.start == slot.start && rows[i].key.period == slot.period
  {
    hide RowAt;
    forall i | 0 <= i < |rows| { RowAtMeans(project, from, to, slot, rows[i]); }
  }

  lemma PointMean(slot: Slot, t: Totals, p95: real)
    ensures var p := PointOf(slot, t, p95);
            p.slot == slot && p.count == t.events && p.errors4 == t.s4 && p.errors5 == t.s5 && p.p95Ms == p95 &&
            (p.count != 0 ==> p.avgMs * p.count as real == t.ms)
  {
    if t.events != 0 { assert Mean(t.ms, t.events) * t.events as real == t.ms; }
  }

  lemma PointAddsRows(p: HistoryPoint, g: seq<Summary>)
    requires var t := Sum(SummaryTotals, g); p.count == t.events && p.errors4 == t.s4 && p.errors5 == t.s5
    ensures AddsRows(p, g)
  {
    Columns.SummaryColumns(g);
    hide Sum, SumInts;
  }

  lemma PointAveragesRows(p: HistoryPoint, g: seq<Summary>)
    requires p.count != 0 ==> p.avgMs * p.count as real == Sum(SummaryTotals, g).ms
    ensures AveragesRows(p, g)
  {
    Columns.AverageAdds(g);
    Columns.TimesAre(g);
    hide Sum, SumReals, Columns.TimesOf;
  }

  lemma SummaryPointMeans(slot: Slot, g: seq<Summary>)
    requires |g| > 0
    ensures var p := SummaryPoint(slot, g); p.slot == slot && AddsRows(p, g) && AveragesRows(p, g) && LargestOfRows(p, g)
  {
    hide AddsRows, AveragesRows, Sum, PointOf, MaxP95;
    PointMean(slot, Sum(SummaryTotals, g), MaxP95(g));
    PointAddsRows(SummaryPoint(slot, g), g);
    PointAveragesRows(SummaryPoint(slot, g), g);
    Columns.LargestP95(g);
  }

  lemma RowPointParts(db: Db, q: Query, p: HistoryPoint) returns (g: seq<Summary>)
    requires p in SummaryPoints(db, q)
    ensures |g| > 0 && g == Filter(RowAt(q, p.slot), db.summaries) && p == SummaryPoint(p.slot, g)
  {
    var s := Filter(MatchingSummary(q), db.summaries);
    hide Filter, Sum, MaxP95;
    var slot := GroupByRow(SlotOf, SummaryPoint, s, p);
    g := Group(SlotOf, slot, s);
    GroupNonEmpty(SlotOf, slot, s);
    RowAtGroup(q, slot, db.summaries);
  }

  lemma RowPointIs(p: HistoryPoint, rows: seq<Summary>, project: string, from: int, to: int, g: seq<Summary>)
    requires |g| > 0 && Picks(rows, Chosen(RowAt(ProjectQuery(project, from, to), p.slot), rows), g)
    requires AddsRows(p, g) && AveragesRows(p, g) && LargestOfRows(p, g)
    ensures PointOfRows(p, rows, project, from, to)
  {
    RowAtChosen(project, from, to, p.slot, rows);
    hide Chosen, Picks, AddsRows, AveragesRows, LargestOfRows;
  }

  lemma RowPointMeans(db: Db, project: string, from: int, to: int, p: HistoryPoint)
    requires p in SummaryPoints(db, ProjectQuery(project, from, to))
    ensures PointOfRows(p, db.summaries, project, from, to)
  {
    hide *;
    var g := RowPointParts(db, ProjectQuery(project, from, to), p);
    SummaryPointMeans(p.slot, g);
    FilterPicks(RowAt(ProjectQuery(project, from, to), p.slot), db.summaries);
    RowPointIs(p, db.summaries, project, from, to, g);
  }

  // ----- the raw points

  function RequestAt(q: Query, slot: Slot): Audit -> bool {
    (a: Audit) => HourSlot(a) == slot && MatchingAudit(q)(a)
  }

  lemma RequestAtGroup(q: Query, slot: Slot, audits: seq<Audit>)
    ensures Group(HourSlot, slot, Filter(MatchingAudit(q), audits)) == Filter(RequestAt(q, slot), audits)
  {
    hide HourSlot, MatchingAudit, Filter;
    FilterTwice(HasKey(HourSlot, slot), MatchingAudit(q), RequestAt(q, slot), audits);
  }

  lemma RequestAtMeans(project: string, from: int, to: int, slot: Slot, a: Audit)
    requires slot.period == Hour && slot.start % 3_600_000_000 == 0
    ensures RequestAt(ProjectQuery(project, from, to), slot)(a) <==>
            a.eventType == "http" && a.project == Some(project) && from <= a.timestamp < to &&
            slot.start <= a.timestamp < slot.start + 3_600_000_000
  {
    Columns.HourOf(a.timestamp, slot.start);
    assert HourSlot(a) == Slot(TruncHour(a.timestamp), Hour);
    assert MatchingAudit(ProjectQuery(project, from, to))(a) <==>
           a.eventType == "http" && a.project == Some(project) && from <= a.timestamp < to;
    hide TruncHour, HourSlot, MatchingAudit;
  }

  lemma RequestAtChosen(project: string, from: int, to: int, slot: Slot, audits: seq<Audit>)
    requires slot.period == Hour && slot.start % 3_600_000_000 == 0
    ensures Chosen(RequestAt(ProjectQuery(project, from, to), slot), audits) ==
            set i | 0 <= i < |audits| && audits[i].eventType == "http" && audits[i].project == Some(project) &&
                    from <= audits[i].timestamp < to && slot.start <= audits[i].timestamp < slot.start + 3_600_000_000
  {
    hide RequestAt;
    forall i | 0 <= i < |audits| { RequestAtMeans(project, from, to, slot, audits[i]); }
  }

  lemma CountsFrom(p: HistoryPoint, g: seq<Audit>, t: Totals)
    requires |g| > 0 && p.count == t.events && p.errors4 == t.s4 && p.errors5 == t.s5
    requires p.avgMs * p.count as real == t.ms
    requires t.events == |g| && t.s4 == |Chosen(Columns.Class(400, 500), g)| && t.s5 == |Chosen(Columns.Failures(), g)|
    requires t.ms == SumInts(Columns.Milliseconds(g)) as real
    ensures CountsRequests(p, g)
  {
    Columns.ChosenClasses(g);
    assert Columns.Milliseconds(g) == seq(|g|, i requires 0 <= i < |g| => g[i].responseMs);
    hide Chosen, SumInts;
  }

  lemma AuditPointIs(slot: Slot, g: seq<Audit>)
    requires |g| > 0
    ensures |Columns.Milliseconds(g)| == |g|
    ensures AuditPoint(slot, g) == PointOf(slot, Sum(AuditTotals, g), Percentile.P95(Columns.Milliseconds(g)))
  {
    assert Times(g) == Columns.Milliseconds(g);
    hide Sum, PointOf, Percentile.P95;
  }

  lemma AuditPointCounts(slot: Slot, g: seq<Audit>)
    requires |g| > 0
    ensures var p := AuditPoint(slot, g);
            p.slot == slot && CountsRequests(p, g) && |Columns.Milliseconds(g)| == |g| &&
            p.p95Ms == Percentile.P95(Columns.Milliseconds(g))
  {
    hide *;
    AuditPointIs(slot, g);
    Columns.RequestTotals(g);
    PointMean(slot, Sum(AuditTotals, g), Percentile.P95(Columns.Milliseconds(g)));
    CountsFrom(AuditPoint(slot, g), g, Sum(AuditTotals, g));
  }

  lemma RequestPointParts(db: Db, q: Query, p: HistoryPoint) returns (g: seq<Audit>)
    requires p in AuditPoints(db, q)
    ensures |g| > 0 && g == Filter(RequestAt(q, p.slot), db.audits) && p == AuditPoint(p.slot, g)
    ensures p.slot.period == Hour && p.slot.start % 3_600_000_000 == 0
  {
    var s := Filter(MatchingAudit(q), db.audits);
    hide Filter, Sum, Percentile.P95, Times;
    var slot := GroupByRow(HourSlot, AuditPoint, s, p);
    g := Group(HourSlot, slot, s);
    GroupNonEmpty(HourSlot, slot, s);
    assert HourSlot(g[0]) == slot by { assert g[0] in g; }
    RequestAtGroup(q, slot, db.audits);
  }

  lemma RequestPointIs(p: HistoryPoint, audits: seq<Audit>, project: string, from: int, to: int, g: seq<Audit>)
    requires p.slot.period == Hour && p.slot.start % 3_600_000_000 == 0
    requires |g| > 0 && Picks(audits, Chosen(RequestAt(ProjectQuery(project, from, to), p.slot), audits), g)
    requires CountsRequests(p, g) && |Columns.Milliseconds(g)| == |g| && p.p95Ms == Percentile.P95(Columns.Milliseconds(g))
    ensures PointOfRequests(p, audits, project, from, to)
  {
    RequestAtChosen(project, from, to, p.slot, audits);
    assert Columns.Milliseconds(g) == seq(|g|, i requires 0 <= i < |g| => g[i].responseMs);
    hide Chosen, Picks, CountsRequests, Percentile.P95, Columns.Milliseconds;
  }

  lemma RequestPointMeans(db: Db, project: string, from: int, to: int, p: HistoryPoint)
    requires p in AuditPoints(db, ProjectQuery(project, from, to))
    ensures PointOfRequests(p, db.audits, project, from, to)
  {
    hide *;
    var g := RequestPointParts(db, ProjectQuery(project, from, to), p);
    AuditPointCounts(p.slot, g);
    FilterPicks(RequestAt(ProjectQuery(project, from, to), p.slot), db.audits);
    RequestPointIs(p, db.audits, project, from, to, g);
  }

  // ----- none is missing

  lemma RowHasPoint(db: Db, project: string, from: int, to: int, r: Summary)
    requires r in db.summaries && r.key.project == project && from <= r.key.start < to
    ensures RowShown(r, SummaryPoints(db, ProjectQuery(project, from, to)))
  {
    var q := ProjectQuery(project, from, to);
    var s := Filter(MatchingSummary(q), db.summaries);
    FilterMembers(MatchingSummary(q), db.summaries);
    assert r in s;
    hide Filter, SummaryPoint;
    KeysProperty(SlotOf, s);
    RowPerKeyLength(SlotOf, SummaryPoint, Keys(SlotOf, s), s);
    var i :| 0 <= i < |Keys(SlotOf, s)| && Keys(SlotOf, s)[i] == SlotOf(r);
    var p := SummaryPoints(db, q)[i];
    assert p in SummaryPoints(db, q);
    SlotKept(SlotOf(r), Group(SlotOf, SlotOf(r), s));
  }

  lemma SlotKept(slot: Slot, g: seq<Summary>)
    ensures SummaryPoint(slot, g).slot == slot
  {
  }

  lemma RequestHasPoint(db: Db, project: string, from: int, to: int, a: Audit)
    requires a in db.audits && a.eventType == "http" && a.project == Some(project) && from <= a.timestamp < to
    ensures exists p :: p in AuditPoints(db, ProjectQuery(project, from, to)) && p.slot == HourSlot(a)
  {
    var q := ProjectQuery(project, from, to);
    var s := Filter(MatchingAudit(q), db.audits);
    FilterMembers(MatchingAudit(q), db.audits);
    assert a in s;
    hide Filter, AuditPoint;
    KeysProperty(HourSlot, s);
    RowPerKeyLength(HourSlot, AuditPoint, Keys(HourSlot, s), s);
    var i :| 0 <= i < |Keys(HourSlot, s)| && Keys(HourSlot, s)[i] == HourSlot(a);
    assert AuditPoints(db, q)[i] in AuditPoints(db, q);
    HourSlotKept(HourSlot(a), Group(HourSlot, HourSlot(a), s));
  }

  lemma HourSlotKept(slot: Slot, g: seq<Audit>)
    ensures AuditPoint(slot, g).slot == slot
  {
  }

  lemma ShownAtHour(a: Audit, points: seq<HistoryPoint>)
    requires exists p :: p in points && p.slot.start == HourSlot(a).start
    ensures RequestShown(a, points)
  {
    var p :| p in points && p.slot.start == HourSlot(a).start;
    Columns.HourOf(a.timestamp, TruncHour(a.timestamp));
    hide TruncHour;
  }

  // ----- the merged history

  lemma MergedMembers(first: Db, second: Db, q: Query)
    ensures forall p :: p in Merged(first, second, q) <==>
              p in SummaryPoints(first, q) || (p in AuditPoints(second, q) && p.slot.start !in Starts(SummaryPoints(first, q)))
  {
    FilterMembers(Unseen(Starts(SummaryPoints(first, q))), AuditPoints(second, q));
    hide SummaryPoints, AuditPoints, Starts, Filter;
  }

  lemma UnclaimedHour(first: Db, project: string, from: int, to: int, t: int)
    requires t !in Starts(SummaryPoints(first, ProjectQuery(project, from, to)))
    ensures NoRowStarts(t, first.summaries, project, from, to)
  {
    SeenStarts(first, ProjectQuery(project, from, to));
    hide SummaryPoints, Starts;
    forall r | r in first.summaries && r.key.project == project && from <= r.key.start < to ensures r.key.start != t {
      assert SummaryMatches(ProjectQuery(project, from, to), r);
    }
  }

  lemma MergedRequestShown(first: Db, second: Db, project: string, from: int, to: int, a: Audit)
    requires a in second.audits && a.eventType == "http" && a.project == Some(project) && from <= a.timestamp < to
    ensures RequestShown(a, Merged(first, second, ProjectQuery(project, from, to)))
  {
    var q := ProjectQuery(project, from, to);
    var points := Merged(first, second, q);
    RequestHasPoint(second, project, from, to, a);
    MergedMembers(first, second, q);
    hide Merged, SummaryPoints, AuditPoints, HourSlot;
    var p :| p in AuditPoints(second, q) && p.slot == HourSlot(a);
    if p.slot.start in Starts(SummaryPoints(first, q)) {
      var seen :| seen in SummaryPoints(first, q) && seen.slot.start == p.slot.start;
      assert seen in points;
    } else {
      assert p in points;
    }
    ShownAtHour(a, points);
  }

  /** What the merge yields is the history of the project over the range. */
  lemma MergedIsShown(first: Db, second: Db, project: string, from: int, to: int)
    ensures HistoryShown(Merged(first, second, ProjectQuery(project, from, to)), first.summaries, second.audits, project, from, to)
  {
    var q := ProjectQuery(project, from, to);
    var points := Merged(first, second, q);
    MergedMembers(first, second, q);
    hide Merged, SummaryPoints, AuditPoints, ProjectQuery, PointOfRows, PointOfRequests, NoRowStarts, RequestShown, Starts;
    forall p | p in points
      ensures PointOfRows(p, first.summaries, project, from, to) ||
              (PointOfRequests(p, second.audits, project, from, to) && NoRowStarts(p.slot.start, first.summaries, project, from, to))
    {
      if p in SummaryPoints(first, q) {
        RowPointMeans(first, project, from, to, p);
      } else {
        RequestPointMeans(second, project, from, to, p);
        UnclaimedHour(first, project, from, to, p.slot.start);
      }
    }
    forall r | r in first.summaries && r.key.project == project && from <= r.key.start < to ensures RowShown(r, points) {
      RowHasPoint(first, project, from, to, r);
    }
    forall a | a in second.audits && a.eventType == "http" && a.project == Some(project) && from <= a.timestamp < to
      ensures RequestShown(a, points)
    {
      MergedRequestShown(first, second, project, from, to, a);
    }
  }

  /** Any reordering of those points is too. */
  lemma ShownReordered(r: seq<HistoryPoint>, s: seq<HistoryPoint>, rows: seq<Summary>, audits: seq<Audit>, project: string, from: int, to: int)
    requires multiset(r) == multiset(s) && HistoryShown(r, rows, audits, project, from, to)
    ensures HistoryShown(s, rows, audits, project, from, to)
  {
    assert forall p :: p in r <==> p in multiset(r);
    assert forall p :: p in s <==> p in multiset(s);
    hide PointOfRows, PointOfRequests, NoRowStarts;
  }

  // ----- and nothing else matters

  /** Stored rows of the project that start within the range. */
  function RowOf(project: string, from: int, to: int): Summary -> bool {
    (r: Summary) => r.key.project == project && from <= r.key.start < to
  }

  /** Raw requests of the project within the range. */
  function RequestOf(project: string, from: int, to: int): Audit -> bool {
    (a: Audit) => a.eventType == "http" && a.project == Some(project) && from <= a.timestamp < to
  }

  /** Rows of other projects, and outside the range, change nothing. */
  lemma OnlyTheProjectMatters(first: Db, second: Db, first': Db, second': Db, project: string, from: int, to: int)
    requires Filter(RowOf(project, from, to), first.summaries) == Filter(RowOf(project, from, to), first'.summaries)
    requires Filter(RequestOf(project, from, to), second.audits) == Filter(RequestOf(project, from, to), second'.audits)
    ensures Merged(first, second, ProjectQuery(project, from, to)) == Merged(first', second', ProjectQuery(project, from, to))
  {
    var q := ProjectQuery(project, from, to);
    FilterCongruent(RowOf(project, from, to), MatchingSummary(q), first.summaries);
    FilterCongruent(RowOf(project, from, to), MatchingSummary(q), first'.summaries);
    FilterCongruent(RequestOf(project, from, to), MatchingAudit(q), second.audits);
    FilterCongruent(RequestOf(project, from, to), MatchingAudit(q), second'.audits);
    hide Filter;
  }
}
