/** The history query: summaries read first, raw rows read after, merged. */
module TieringHistory {
  import opened Options
  import opened Rows
  import opened Tiers
  import Percentile

  // ----- what a reader asks for

  /** A project (and optionally one of its services) over [from, to). */
  datatype Query = Query(project: string, service: Option<string>, from: int, to: int)

  predicate Aligned(q: Query) {
    q.from % DAY == 0 && q.to % DAY == 0
  }

  predicate Matches(q: Query, project: string, service: string, t: int) {
    project == q.project && (q.service.None? || q.service.value == service) && q.from <= t < q.to
  }

  predicate AuditMatches(q: Query, a: Audit) {
    a.eventType == "http" && a.project.Some? && Matches(q, a.project.value, a.service, a.timestamp)
  }

  predicate SummaryMatches(q: Query, r: Summary) {
    Matches(q, r.key.project, r.key.service, r.key.start)
  }

  function AuditIn(q: Query): Audit -> Totals {
    (a: Audit) => if AuditMatches(q, a) then AuditTotals(a) else ZERO
  }

  function SummaryIn(q: Query): Summary -> Totals {
    (r: Summary) => if SummaryMatches(q, r) then SummaryTotals(r) else ZERO
  }

  datatype Slot = Slot(start: int, period: Period)

  datatype HistoryPoint = HistoryPoint(slot: Slot, count: int, errors4: int, errors5: int, avgMs: real, p95Ms: real)

  function PointOf(slot: Slot, t: Totals, p95: real): HistoryPoint {
    HistoryPoint(slot, t.events, t.s4, t.s5, Mean(t.ms, t.events), p95)
  }

  function SlotOf(r: Summary): Slot { Slot(r.key.start, r.key.period) }

  function HourSlot(a: Audit): Slot { Slot(TruncHour(a.timestamp), Hour) }

  function SummaryPoint(slot: Slot, g: seq<Summary>): HistoryPoint {
    PointOf(slot, Sum(SummaryTotals, g), if |g| == 0 then 0.0 else MaxP95(g))
  }

  function AuditPoint(slot: Slot, g: seq<Audit>): HistoryPoint {
    PointOf(slot, Sum(AuditTotals, g), if |g| == 0 then 0.0 else Percentile.P95(Times(g)))
  }

  function MatchingSummary(q: Query): Summary -> bool { (r: Summary) => SummaryMatches(q, r) }

  function MatchingAudit(q: Query): Audit -> bool { (a: Audit) => AuditMatches(q, a) }

  /** The first SELECT: summaries merged across services. */
  function SummaryPoints(db: Db, q: Query): seq<HistoryPoint> {
    GroupBy(SlotOf, SummaryPoint, Filter(MatchingSummary(q), db.summaries))
  }

  /** The second SELECT: raw rows bucketed by hour. */
  function AuditPoints(db: Db, q: Query): seq<HistoryPoint> {
    GroupBy(HourSlot, AuditPoint, Filter(MatchingAudit(q), db.audits))
  }

  function Starts(points: seq<HistoryPoint>): set<int> {
    set p | p in points :: p.slot.start
  }

  function Unseen(seen: set<int>): HistoryPoint -> bool {
    (p: HistoryPoint) => p.slot.start !in seen
  }

  /** Summaries first, then the raw hours whose start no summary has.  The tables
      may have changed between the two SELECTs. */
  function Merged(first: Db, second: Db, q: Query): seq<HistoryPoint> {
    SummaryPoints(first, q) + Filter(Unseen(Starts(SummaryPoints(first, q))), AuditPoints(second, q))
  }

  /** The history of a project covers all its services. */
  function ProjectQuery(project: string, from: int, to: int): Query { Query(project, None, from, to) }

  // ----- what the reader can add up

  /** A point carries no 2xx or 3xx counts. */
  function Shown(t: Totals): Totals { t.(s2 := 0, s3 := 0) }

  function PointTotals(p: HistoryPoint): Totals {
    Totals(p.count, 0, 0, p.errors4, p.errors5, p.avgMs * p.count as real)
  }

  function ShownOf<T>(w: T -> Totals): T -> Totals { x => Shown(w(x)) }

  lemma {:induction false} SumShown<T(!new)>(w: T -> Totals, s: seq<T>)
    ensures Sum(ShownOf(w), s) == Shown(Sum(w, s))
  {
    if |s| > 0 { SumShown(w, s[..|s| - 1]); }
  }

  lemma PointOfTotals(slot: Slot, t: Totals, p95: real)
    requires t.events != 0
    ensures PointTotals(PointOf(slot, t, p95)) == Shown(t)
  {
    assert Mean(t.ms, t.events) * t.events as real == t.ms;
  }

  lemma SummaryPointsTotal(db: Db, q: Query)
    requires Valid(db)
    ensures Sum(PointTotals, SummaryPoints(db, q)) == Shown(Sum(SummaryIn(q), db.summaries))
  {
    var s := Filter(MatchingSummary(q), db.summaries);
    FilterMembers(MatchingSummary(q), db.summaries);
    forall slot | slot in Keys(SlotOf, s)
      ensures PointTotals(SummaryPoint(slot, Group(SlotOf, slot, s))) ==
              Sum(ShownOf(SummaryTotals), Group(SlotOf, slot, s))
    {
      var g := Group(SlotOf, slot, s);
      GroupNonEmpty(SlotOf, slot, s);
      SummarySums(g);
      PointOfTotals(slot, Sum(SummaryTotals, g), MaxP95(g));
      SumShown(SummaryTotals, g);
    }
    GroupBySum(SlotOf, SummaryPoint, s, ShownOf(SummaryTotals), PointTotals);
    SumShown(SummaryTotals, s);
    SumFilter(SummaryTotals, MatchingSummary(q), SummaryIn(q), db.summaries);
  }

  /** Raw rows of the query whose hour no summary point claims. */
  function VisibleAudit(seen: set<int>): Audit -> Totals {
    (a: Audit) => if TruncHour(a.timestamp) in seen then ZERO else AuditTotals(a)
  }

  function VisibleIn(q: Query, seen: set<int>): Audit -> Totals {
    (a: Audit) => if AuditMatches(q, a) && TruncHour(a.timestamp) !in seen then AuditTotals(a) else ZERO
  }

  function UnseenTotals(seen: set<int>): HistoryPoint -> Totals {
    (p: HistoryPoint) => if p.slot.start in seen then ZERO else PointTotals(p)
  }

  lemma AuditPointsTotal(db: Db, q: Query, seen: set<int>)
    ensures Sum(PointTotals, Filter(Unseen(seen), AuditPoints(db, q))) == Shown(Sum(VisibleIn(q, seen), db.audits))
  {
    var s := Filter(MatchingAudit(q), db.audits);
    var v := UnseenTotals(seen);
    var w := ShownOf(VisibleAudit(seen));
    forall slot | slot in Keys(HourSlot, s)
      ensures v(AuditPoint(slot, Group(HourSlot, slot, s))) == Sum(w, Group(HourSlot, slot, s))
    {
      AuditPointWeighs(slot, s, seen);
      assert AuditPoint(slot, Group(HourSlot, slot, s)).slot == slot;
    }
    SumFilter(PointTotals, Unseen(seen), v, AuditPoints(db, q));
    GroupBySum(HourSlot, AuditPoint, s, w, v);
    SumShown(VisibleAudit(seen), s);
    SumFilter(VisibleAudit(seen), MatchingAudit(q), VisibleIn(q, seen), db.audits);
  }

  lemma AuditPointWeighs(slot: Slot, s: seq<Audit>, seen: set<int>)
    requires slot in Keys(HourSlot, s)
    ensures var g := Group(HourSlot, slot, s);
            Sum(ShownOf(VisibleAudit(seen)), g) ==
            if slot.start in seen then ZERO else PointTotals(AuditPoint(slot, g))
  {
    var g := Group(HourSlot, slot, s);
    GroupNonEmpty(HourSlot, slot, s);
    if slot.start in seen {
      SumZero(ShownOf(VisibleAudit(seen)), g);
    } else {
      AuditSums(g);
      SumCongruent(ShownOf(VisibleAudit(seen)), ShownOf(AuditTotals), g);
      SumShown(AuditTotals, g);
      PointOfTotals(slot, Sum(AuditTotals, g), Percentile.P95(Times(g)));
    }
  }

  // ----- the two reads together

  lemma SeenStarts(db: Db, q: Query)
    ensures forall t :: t in Starts(SummaryPoints(db, q)) <==>
              exists r :: r in db.summaries && SummaryMatches(q, r) && r.key.start == t
  {
    var s := Filter(MatchingSummary(q), db.summaries);
    FilterMembers(MatchingSummary(q), db.summaries);
    KeysProperty(SlotOf, s);
    RowPerKeyLength(SlotOf, SummaryPoint, Keys(SlotOf, s), s);
    forall t | t in Starts(SummaryPoints(db, q))
      ensures exists r :: r in db.summaries && SummaryMatches(q, r) && r.key.start == t
    {
      var p :| p in SummaryPoints(db, q) && p.slot.start == t;
      var slot := GroupByRow(SlotOf, SummaryPoint, s, p);
    }
    forall r | r in db.summaries && SummaryMatches(q, r)
      ensures r.key.start in Starts(SummaryPoints(db, q))
    {
      assert SlotOf(r) in Keys(SlotOf, s);
      var i :| 0 <= i < |Keys(SlotOf, s)| && Keys(SlotOf, s)[i] == SlotOf(r);
      assert SummaryPoints(db, q)[i] in SummaryPoints(db, q);
    }
  }

  /** What a reader adds up over the points of the history. */
  function HistoryTotals(first: Db, second: Db, q: Query): Totals { Sum(PointTotals, Merged(first, second, q)) }

  /** The summaries of the first read, and the raw rows of the second whose hour
      none of them claims. */
  lemma HistorySplits(first: Db, second: Db, q: Query)
    requires Valid(first)
    ensures HistoryTotals(first, second, q) ==
            Plus(Shown(Sum(SummaryIn(q), first.summaries)), Shown(Sum(VisibleIn(q, Starts(SummaryPoints(first, q))), second.audits)))
  {
    hide SummaryPoints, AuditPoints, Starts, Valid, Sum;
    var seen := Starts(SummaryPoints(first, q));
    SumAppend(PointTotals, SummaryPoints(first, q), Filter(Unseen(seen), AuditPoints(second, q)));
    SummaryPointsTotal(first, q);
    AuditPointsTotal(second, q, seen);
  }

  // ----- the merged points themselves

  /** No two points share start and period type, and no raw hour shares its
      start with a summary: whatever the two reads find, for any range. */
  lemma MergedSlotsDistinct(first: Db, second: Db, q: Query)
    ensures var m := Merged(first, second, q); forall i, j :: 0 <= i < j < |m| ==> m[i].slot != m[j].slot
    ensures var m := Merged(first, second, q);
            forall i, j :: 0 <= i < |SummaryPoints(first, q)| <= j < |m| ==> m[i].slot.start != m[j].slot.start
  {
    var ps, pa := SummaryPoints(first, q), AuditPoints(second, q);
    var kept := Filter(Unseen(Starts(ps)), pa);
    PointSlotsDistinct(SlotOf, SummaryPoint, Filter(MatchingSummary(q), first.summaries));
    PointSlotsDistinct(HourSlot, AuditPoint, Filter(MatchingAudit(q), second.audits));
    FilterSlots(Unseen(Starts(ps)), pa);
    FilterMembers(Unseen(Starts(ps)), pa);
    UnseenApart(ps, kept);
  }

  lemma UnseenApart(ps: seq<HistoryPoint>, kept: seq<HistoryPoint>)
    requires forall p :: p in kept ==> p.slot.start !in Starts(ps)
    ensures forall i, j :: 0 <= i < |ps| && 0 <= j < |kept| ==> ps[i].slot.start != kept[j].slot.start
  {
    forall i, j | 0 <= i < |ps| && 0 <= j < |kept| ensures ps[i].slot.start != kept[j].slot.start {
      assert ps[i] in ps;
      assert kept[j] in kept;
    }
  }

  lemma PointSlotsDistinct<T(!new)>(k: T -> Slot, mk: (Slot, seq<T>) -> HistoryPoint, s: seq<T>)
    requires forall slot, g :: mk(slot, g).slot == slot
    ensures forall i, j :: 0 <= i < j < |GroupBy(k, mk, s)| ==> GroupBy(k, mk, s)[i].slot != GroupBy(k, mk, s)[j].slot
  {
    KeysProperty(k, s);
    RowPerKeyLength(k, mk, Keys(k, s), s);
  }

  lemma {:induction false} FilterSlots(p: HistoryPoint -> bool, s: seq<HistoryPoint>)
    requires forall i, j :: 0 <= i < j < |s| ==> s[i].slot != s[j].slot
    ensures forall i, j :: 0 <= i < j < |Filter(p, s)| ==> Filter(p, s)[i].slot != Filter(p, s)[j].slot
  {
    if |s| > 0 {
      var front, last := s[..|s| - 1], s[|s| - 1];
      FilterSlots(p, front);
      FilterMembers(p, front);
      forall i | 0 <= i < |Filter(p, front)| ensures Filter(p, front)[i].slot != last.slot {
        assert Filter(p, front)[i] in front;
        var k :| 0 <= k < |front| && front[k] == Filter(p, front)[i];
      }
    }
  }
}
