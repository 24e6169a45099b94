/** The two tiering tables and the SQL statements that move rows between them.
    Times are microseconds since the epoch, in UTC. */
module Tiers {
  import opened Options
  import opened Percentile
  import opened Rows

  const HOUR: int := 3_600_000_000
  const DAY: int := 24 * HOUR

  function TruncHour(t: int): int { t - t % HOUR }

  function TruncDay(t: int): int { t - t % DAY }

  lemma HourWithin(t: int, cutoff: int)
    requires cutoff % HOUR == 0
    ensures t < cutoff <==> TruncHour(t) < cutoff
    ensures TruncHour(t) <= t
  {
  }

  lemma DayWithin(t: int, cutoff: int)
    requires cutoff % DAY == 0
    ensures t < cutoff <==> TruncDay(t) < cutoff
    ensures TruncDay(t) <= t
    ensures cutoff % HOUR == 0
  {
  }

  /** A row of `audits`, restricted to the columns tiering reads. */
  datatype Audit = Audit(timestamp: int, eventType: string, project: Option<string>, service: string,
                         status: int, responseMs: int)

  datatype Period = Hour | Day

  /** The unique index of `audit_summaries`. */
  datatype Key = Key(start: int, period: Period, project: string, service: string)

  datatype Summary = Summary(key: Key, s2: int, s3: int, s4: int, s5: int,
                             avgMs: real, p95Ms: real, count: int)

  datatype Db = Db(audits: seq<Audit>, summaries: seq<Summary>)

  // ----- what a row contributes

  function One(b: bool): int { if b then 1 else 0 }

  function AuditTotals(a: Audit): Totals {
    Totals(1, One(200 <= a.status < 300), One(300 <= a.status < 400), One(400 <= a.status < 500),
           One(500 <= a.status), a.responseMs as real)
  }

  function SummaryTotals(r: Summary): Totals {
    Totals(r.count, r.s2, r.s3, r.s4, r.s5, r.avgMs * r.count as real)
  }

  function Times(g: seq<Audit>): seq<int> {
    seq(|g|, i requires 0 <= i < |g| => g[i].responseMs)
  }

  function MaxP95(g: seq<Summary>): real
    requires |g| > 0
  {
    if |g| == 1 then g[0].p95Ms
    else
      var m := MaxP95(g[..|g| - 1]);
      if m < g[|g| - 1].p95Ms then g[|g| - 1].p95Ms else m
  }

  /** An average, with SQL's answer for the empty group. */
  function Mean(sum: real, n: int): real {
    if n == 0 then 0.0 else sum / n as real
  }

  function RowOf(key: Key, t: Totals, p95: real): Summary {
    Summary(key, t.s2, t.s3, t.s4, t.s5, Mean(t.ms, t.events), p95, t.events)
  }

  // ----- grouping

  function HourKey(a: Audit): Key {
    Key(TruncHour(a.timestamp), Hour, a.project.GetOr(""), a.service)
  }

  function HourRow(key: Key, g: seq<Audit>): Summary {
    RowOf(key, Sum(AuditTotals, g), if |g| == 0 then 0.0 else P95(Times(g)))
  }

  function DayKey(r: Summary): Key {
    Key(TruncDay(r.key.start), Day, r.key.project, r.key.service)
  }

  function DayRow(key: Key, g: seq<Summary>): Summary {
    RowOf(key, Sum(SummaryTotals, g), if |g| == 0 then 0.0 else MaxP95(g))
  }

  // ----- the statements

  predicate Tierable(a: Audit) {
    a.eventType == "http" && a.project.Some? && a.project.value != ""
  }

  function OldAudit(cutoff: int): Audit -> bool {
    (a: Audit) => Tierable(a) && a.timestamp < cutoff
  }

  function KeptAudit(cutoff: int): Audit -> bool {
    (a: Audit) => !(Tierable(a) && a.timestamp < cutoff)
  }

  function OldHour(cutoff: int): Summary -> bool {
    (r: Summary) => r.key.period == Hour && r.key.start < cutoff
  }

  function KeptSummary(cutoff: int): Summary -> bool {
    (r: Summary) => !(r.key.period == Hour && r.key.start < cutoff)
  }

  function KeySet(rows: seq<Summary>): set<Key> {
    set r | r in rows :: r.key
  }

  /** ON CONFLICT DO NOTHING keeps a row only when its key is not yet stored. */
  function Missing(stored: set<Key>): Summary -> bool {
    (r: Summary) => r.key !in stored
  }

  function HourRows(db: Db, cutoff: int): seq<Summary> {
    GroupBy(HourKey, HourRow, Filter(OldAudit(cutoff), db.audits))
  }

  function DayRows(db: Db, cutoff: int): seq<Summary> {
    GroupBy(DayKey, DayRow, Filter(OldHour(cutoff), db.summaries))
  }

  function Store(db: Db, rows: seq<Summary>): Db {
    db.(summaries := db.summaries + Filter(Missing(KeySet(db.summaries)), rows))
  }

  function InsertHours(db: Db, cutoff: int): Db { Store(db, HourRows(db, cutoff)) }

  function DeleteAudits(db: Db, cutoff: int): Db { db.(audits := Filter(KeptAudit(cutoff), db.audits)) }

  function InsertDays(db: Db, cutoff: int): Db { Store(db, DayRows(db, cutoff)) }

  function DeleteHours(db: Db, cutoff: int): Db { db.(summaries := Filter(KeptSummary(cutoff), db.summaries)) }

  function HourStage(db: Db, cutoff: int): Db { DeleteAudits(InsertHours(db, cutoff), cutoff) }

  function DayStage(db: Db, cutoff: int): Db { DeleteHours(InsertDays(db, cutoff), cutoff) }

  // ----- table invariants, kept by every statement for every cutoff

  ghost predicate UniqueKeys(rows: seq<Summary>) {
    forall i, j :: 0 <= i < j < |rows| ==> rows[i].key != rows[j].key
  }

  /** A stored summary stands for at least one request, its classes never count
      more than its requests, and it starts on its own period boundary. */
  ghost predicate WellFormedRow(r: Summary) {
    && 1 <= r.count
    && 0 <= r.s2 && 0 <= r.s3 && 0 <= r.s4 && 0 <= r.s5
    && r.s2 + r.s3 + r.s4 + r.s5 <= r.count
    && r.key.project != ""
    && r.key.start == if r.key.period == Hour then TruncHour(r.key.start) else TruncDay(r.key.start)
  }

  ghost predicate Valid(db: Db) {
    && UniqueKeys(db.summaries)
    && forall r :: r in db.summaries ==> WellFormedRow(r)
  }

  ghost predicate WellFormedTotals(t: Totals, n: int) {
    && n <= t.events && 0 <= t.s2 && 0 <= t.s3 && 0 <= t.s4 && 0 <= t.s5
    && t.s2 + t.s3 + t.s4 + t.s5 <= t.events
  }

  lemma {:induction false} AuditSums(g: seq<Audit>)
    ensures Sum(AuditTotals, g).events == |g|
    ensures WellFormedTotals(Sum(AuditTotals, g), |g|)
  {
    if |g| > 0 { AuditSums(g[..|g| - 1]); }
  }

  lemma {:induction false} SummarySums(g: seq<Summary>)
    requires forall r :: r in g ==> WellFormedRow(r)
    ensures WellFormedTotals(Sum(SummaryTotals, g), |g|)
  {
    if |g| > 0 {
      SummarySums(g[..|g| - 1]);
      assert g[|g| - 1] in g;
    }
  }

  lemma RowOfTotals(key: Key, t: Totals, p95: real)
    requires t.events != 0
    ensures SummaryTotals(RowOf(key, t, p95)) == t
  {
    assert Mean(t.ms, t.events) * t.events as real == t.ms;
  }

  /** A summary row weighs exactly what the rows it was made from weigh. */
  lemma HourRowTotals(key: Key, g: seq<Audit>)
    requires |g| > 0
    ensures SummaryTotals(HourRow(key, g)) == Sum(AuditTotals, g)
  {
    AuditSums(g);
    RowOfTotals(key, Sum(AuditTotals, g), P95(Times(g)));
  }

  lemma DayRowTotals(key: Key, g: seq<Summary>)
    requires |g| > 0 && forall r :: r in g ==> WellFormedRow(r)
    ensures SummaryTotals(DayRow(key, g)) == Sum(SummaryTotals, g)
  {
    SummarySums(g);
    RowOfTotals(key, Sum(SummaryTotals, g), MaxP95(g));
  }

  lemma TruncTwice(t: int)
    ensures TruncHour(TruncHour(t)) == TruncHour(t)
    ensures TruncDay(TruncDay(t)) == TruncDay(t)
  {
  }

  /** What a row of HourRows is made of. */
  lemma HourRowSource(db: Db, cutoff: int, r: Summary) returns (g: seq<Audit>)
    requires r in HourRows(db, cutoff)
    ensures g == Group(HourKey, r.key, Filter(OldAudit(cutoff), db.audits))
    ensures |g| > 0 && r == HourRow(r.key, g)
    ensures forall a :: a in g <==> a in db.audits && OldAudit(cutoff)(a) && HourKey(a) == r.key
    ensures WellFormedRow(r) && r.key.period == Hour && r.key.start < cutoff
  {
    var s := Filter(OldAudit(cutoff), db.audits);
    var key := GroupByRow(HourKey, HourRow, s, r);
    g := Group(HourKey, key, s);
    GroupNonEmpty(HourKey, key, s);
    FilterMembers(OldAudit(cutoff), db.audits);
    AuditSums(g);
    assert g[0] in g;
    TruncTwice(g[0].timestamp);
  }

  lemma DayRowSource(db: Db, cutoff: int, r: Summary) returns (g: seq<Summary>)
    requires Valid(db)
    requires r in DayRows(db, cutoff)
    ensures g == Group(DayKey, r.key, Filter(OldHour(cutoff), db.summaries))
    ensures |g| > 0 && r == DayRow(r.key, g)
    ensures forall h :: h in g <==> h in db.summaries && OldHour(cutoff)(h) && DayKey(h) == r.key
    ensures WellFormedRow(r) && r.key.period == Day && r.key.start < cutoff
  {
    var s := Filter(OldHour(cutoff), db.summaries);
    var key := GroupByRow(DayKey, DayRow, s, r);
    g := Group(DayKey, key, s);
    GroupNonEmpty(DayKey, key, s);
    FilterMembers(OldHour(cutoff), db.summaries);
    SummarySums(g);
    assert g[0] in g;
    TruncTwice(g[0].key.start);
  }

  /** One GROUP BY never produces a key twice. */
  lemma GroupKeysUnique<T(!new)>(k: T -> Key, mk: (Key, seq<T>) -> Summary, s: seq<T>)
    requires forall key, g :: mk(key, g).key == key
    ensures UniqueKeys(GroupBy(k, mk, s))
  {
    KeysProperty(k, s);
    RowPerKeyLength(k, mk, Keys(k, s), s);
  }

  lemma {:induction false} FilterUnique(p: Summary -> bool, rows: seq<Summary>)
    requires UniqueKeys(rows)
    ensures UniqueKeys(Filter(p, rows))
  {
    if |rows| > 0 {
      var front, last := rows[..|rows| - 1], rows[|rows| - 1];
      FilterUnique(p, front);
      FilterMembers(p, front);
      forall r | r in front ensures r.key != last.key {
        var i :| 0 <= i < |front| && front[i] == r;
      }
      forall i | 0 <= i < |Filter(p, front)| ensures Filter(p, front)[i].key != last.key {
        assert Filter(p, front)[i] in Filter(p, front);
      }
    }
  }

  lemma StoreValid(db: Db, rows: seq<Summary>)
    requires Valid(db) && UniqueKeys(rows)
    requires forall r :: r in rows ==> WellFormedRow(r)
    ensures Valid(Store(db, rows))
  {
    var p := Missing(KeySet(db.summaries));
    FilterMembers(p, rows);
    FilterUnique(p, rows);
    var kept := Filter(p, rows);
    forall i, j | 0 <= i < |db.summaries| && 0 <= j < |kept| ensures db.summaries[i].key != kept[j].key {
      assert db.summaries[i] in db.summaries;
      assert kept[j] in kept;
    }
  }

  /** Unique keys, positive counts and class counts within the request count
      survive every statement, whatever its cutoff: NULLIF never fires. */
  lemma StatementsKeepTablesValid(db: Db, cutoff: int)
    requires Valid(db)
    ensures Valid(InsertHours(db, cutoff)) && Valid(DeleteAudits(db, cutoff))
    ensures Valid(InsertDays(db, cutoff)) && Valid(DeleteHours(db, cutoff))
  {
    forall r | r in HourRows(db, cutoff) ensures WellFormedRow(r) { var _ := HourRowSource(db, cutoff, r); }
    GroupKeysUnique(HourKey, HourRow, Filter(OldAudit(cutoff), db.audits));
    StoreValid(db, HourRows(db, cutoff));
    forall r | r in DayRows(db, cutoff) ensures WellFormedRow(r) { var _ := DayRowSource(db, cutoff, r); }
    GroupKeysUnique(DayKey, DayRow, Filter(OldHour(cutoff), db.summaries));
    StoreValid(db, DayRows(db, cutoff));
    FilterMembers(KeptSummary(cutoff), db.summaries);
    FilterUnique(KeptSummary(cutoff), db.summaries);
  }
}
