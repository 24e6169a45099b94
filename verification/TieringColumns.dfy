/** What the four tiering statements and a stored row say about the rows of the
    tables, column by column: numbers of rows and plain sums over them.  An hour is
    3_600_000_000 and a day 86_400_000_000 microseconds. */
module TieringColumns {
  import opened Counting
  import opened Options
  import opened Rows
  import opened Tiers
  import Laws = TieringLaws
  import Percentile
  import Runs = TieringRun
  import TieringExact

  // ----- the columns of a group of requests

  function Class(low: int, high: int): Audit -> bool { (a: Audit) => low <= a.status < high }

  function Failures(): Audit -> bool { (a: Audit) => 500 <= a.status }

  function Milliseconds(g: seq<Audit>): seq<int> { seq(|g|, i requires 0 <= i < |g| => g[i].responseMs) }

  /** A column of the totals that adds one for each request of a kind. */
  lemma {:induction false} ColumnCounts(column: Totals -> int, kind: Audit -> bool, g: seq<Audit>)
    requires column(ZERO) == 0 && forall a, b :: column(Plus(a, b)) == column(a) + column(b)
    requires forall a :: column(AuditTotals(a)) == if kind(a) then 1 else 0
    ensures column(Sum(AuditTotals, g)) == |Chosen(kind, g)|
  {
    hide AuditTotals, Plus;
    if |g| == 0 {
      ChosenNothing(kind, g);
    } else {
      var t, e := g[..|g| - 1], g[|g| - 1];
      assert g == t + [e];
      ColumnCounts(column, kind, t);
      ChosenLast(kind, t, e);
      hide Chosen;
    }
  }

  lemma {:induction false} TimeTotals(g: seq<Audit>)
    ensures Sum(AuditTotals, g).ms == SumInts(Milliseconds(g)) as real
  {
    if |g| > 0 {
      var t := g[..|g| - 1];
      TimeTotals(t);
      assert Milliseconds(g)[..|t|] == Milliseconds(t);
    }
  }

  lemma RequestTotals(g: seq<Audit>)
    ensures var t := Sum(AuditTotals, g);
            && t.events == |g|
            && t.s2 == |Chosen(Class(200, 300), g)| && t.s3 == |Chosen(Class(300, 400), g)|
            && t.s4 == |Chosen(Class(400, 500), g)| && t.s5 == |Chosen(Failures(), g)|
            && t.ms == SumInts(Milliseconds(g)) as real
  {
    AuditSums(g);
    TimeTotals(g);
    hide Sum, Chosen;
    ColumnCounts((t: Totals) => t.s2, Class(200, 300), g);
    ColumnCounts((t: Totals) => t.s3, Class(300, 400), g);
    ColumnCounts((t: Totals) => t.s4, Class(400, 500), g);
    ColumnCounts((t: Totals) => t.s5, Failures(), g);
  }

  /** The columns of a row, from the requests it stands for. */
  ghost predicate RequestColumns(r: Summary, g: seq<Audit>) {
    && r.count == |g|
    && r.s2 == |set i | 0 <= i < |g| && 200 <= g[i].status < 300|
    && r.s3 == |set i | 0 <= i < |g| && 300 <= g[i].status < 400|
    && r.s4 == |set i | 0 <= i < |g| && 400 <= g[i].status < 500|
    && r.s5 == |set i | 0 <= i < |g| && 500 <= g[i].status|
    && r.avgMs * r.count as real == SumInts(seq(|g|, i requires 0 <= i < |g| => g[i].responseMs)) as real
  }

  lemma ChosenClasses(g: seq<Audit>)
    ensures Chosen(Class(200, 300), g) == set i | 0 <= i < |g| && 200 <= g[i].status < 300
    ensures Chosen(Class(300, 400), g) == set i | 0 <= i < |g| && 300 <= g[i].status < 400
    ensures Chosen(Class(400, 500), g) == set i | 0 <= i < |g| && 400 <= g[i].status < 500
    ensures Chosen(Failures(), g) == set i | 0 <= i < |g| && 500 <= g[i].status
  {
  }

  lemma MeanTimes(key: Key, t: Totals, p95: real)
    requires t.events != 0
    ensures var r := RowOf(key, t, p95);
            r.count == t.events && r.s2 == t.s2 && r.s3 == t.s3 && r.s4 == t.s4 && r.s5 == t.s5 &&
            r.avgMs * r.count as real == t.ms && r.p95Ms == p95 && r.key == key
  {
    assert Mean(t.ms, t.events) * t.events as real == t.ms;
  }

  lemma RowOfRequests(key: Key, g: seq<Audit>, p95: real)
    requires |g| > 0
    ensures RequestColumns(RowOf(key, Sum(AuditTotals, g), p95), g)
  {
    RequestTotals(g);
    ChosenClasses(g);
    MeanTimes(key, Sum(AuditTotals, g), p95);
    assert Milliseconds(g) == seq(|g|, i requires 0 <= i < |g| => g[i].responseMs);
    hide Sum, Chosen, RowOf;
  }

  /** In any run of any statements each column of a stored row is the number, or the
      plain sum of the response times, of the requests behind it: 2xx, 3xx, 4xx, and
      500 and up. */
  lemma RowColumns(steps: seq<Runs.Step>, r: Summary)
    requires r in Runs.Run(steps).db.summaries
    ensures RequestColumns(r, TieringExact.Behind(r.key, Runs.Run(steps).fates))
  {
    var behind := TieringExact.Behind(r.key, Runs.Run(steps).fates);
    TieringExact.RowIsDirectAggregate(steps, r);
    Runs.RunTracks(steps);
    assert WellFormedRow(r);
    hide *;
    CountIsLength(r, behind);
    RowOfRequests(r.key, behind, r.p95Ms);
  }

  lemma CountIsLength(r: Summary, g: seq<Audit>)
    requires WellFormedRow(r) && r.count == |g|
    ensures |g| > 0
  {
  }

  // ----- INSERT of hours

  /** `r` is made of the old requests of one project, service and hour. */
  ghost predicate HourRowFrom(r: Summary, audits: seq<Audit>, cutoff: int) {
    var b := set i | 0 <= i < |audits| && audits[i].eventType == "http" && audits[i].project == Some(r.key.project) &&
                     audits[i].service == r.key.service && audits[i].timestamp < cutoff &&
                     r.key.start <= audits[i].timestamp < r.key.start + 3_600_000_000;
    && r.key.period == Hour && r.key.project != "" && r.key.start % 3_600_000_000 == 0
    && exists g: seq<Audit> :: |g| > 0 && Picks(audits, b, g) && RequestColumns(r, g) &&
                   r.p95Ms == Percentile.P95(seq(|g|, i requires 0 <= i < |g| => g[i].responseMs))
  }

  /** Every old request with a project has its hour stored. */
  ghost predicate HourStoredFor(a: Audit, rows: seq<Summary>) {
    a.project.Some? &&
    exists r :: r in rows && r.key.period == Hour && r.key.project == a.project.value && r.key.service == a.service &&
                r.key.start % 3_600_000_000 == 0 && r.key.start <= a.timestamp < r.key.start + 3_600_000_000
  }

  /** No key appears twice among the rows from position n on, or before it. */
  ghost predicate NewKeys(rows: seq<Summary>, n: nat) {
    forall i, j :: 0 <= i < j < |rows| && n <= j ==> rows[i].key != rows[j].key
  }

  ghost predicate HoursStored(before: Db, after: Db, cutoff: int) {
    var n := |before.summaries|;
    && after.audits == before.audits
    && n <= |after.summaries| && after.summaries[..n] == before.summaries && NewKeys(after.summaries, n)
    && (forall j :: n <= j < |after.summaries| ==> HourRowFrom(after.summaries[j], before.audits, cutoff))
    && forall a | a in before.audits && a.eventType == "http" && a.project.Some? && a.project.value != "" &&
                  a.timestamp < cutoff :: HourStoredFor(a, after.summaries)
  }

  function InHour(key: Key, cutoff: int): Audit -> bool {
    (a: Audit) => HourKey(a) == key && OldAudit(cutoff)(a)
  }

  lemma InHourMeans(key: Key, cutoff: int, a: Audit)
    requires key.period == Hour && key.project != "" && key.start % 3_600_000_000 == 0
    ensures InHour(key, cutoff)(a) <==>
            a.eventType == "http" && a.project == Some(key.project) && a.service == key.service && a.timestamp < cutoff &&
            key.start <= a.timestamp < key.start + 3_600_000_000
  {
    HourOf(a.timestamp, key.start);
    assert HourKey(a) == Key(TruncHour(a.timestamp), Hour, a.project.GetOr(""), a.service);
    assert OldAudit(cutoff)(a) <==> Tierable(a) && a.timestamp < cutoff;
    hide TruncHour, HourKey, OldAudit;
  }

  lemma HourOf(t: int, start: int)
    requires start % 3_600_000_000 == 0
    ensures TruncHour(t) == start <==> start <= t < start + 3_600_000_000
  {
    var q := t / 3_600_000_000;
    assert TruncHour(t) == q * 3_600_000_000;
  }

  lemma InHourChosen(key: Key, cutoff: int, audits: seq<Audit>)
    requires key.period == Hour && key.project != "" && key.start % 3_600_000_000 == 0
    ensures Chosen(InHour(key, cutoff), audits) ==
            set i | 0 <= i < |audits| && audits[i].eventType == "http" && audits[i].project == Some(key.project) &&
                    audits[i].service == key.service && audits[i].timestamp < cutoff &&
                    key.start <= audits[i].timestamp < key.start + 3_600_000_000
  {
    hide InHour;
    forall i | 0 <= i < |audits| ensures i in Chosen(InHour(key, cutoff), audits) <==> InHour(key, cutoff)(audits[i]) {}
    forall i | 0 <= i < |audits| { InHourMeans(key, cutoff, audits[i]); }
  }

  lemma InHourGroup(key: Key, cutoff: int, audits: seq<Audit>)
    ensures Group(HourKey, key, Filter(OldAudit(cutoff), audits)) == Filter(InHour(key, cutoff), audits)
  {
    hide HourKey, OldAudit, Filter;
    FilterTwice(HasKey(HourKey, key), OldAudit(cutoff), InHour(key, cutoff), audits);
  }

  lemma HourRowParts(db: Db, cutoff: int, r: Summary) returns (g: seq<Audit>)
    requires r in HourRows(db, cutoff)
    ensures |g| > 0 && g == Filter(InHour(r.key, cutoff), db.audits) && r == RowOf(r.key, Sum(AuditTotals, g), Percentile.P95(Milliseconds(g)))
    ensures r.key.period == Hour && r.key.project != "" && r.key.start % 3_600_000_000 == 0
  {
    hide Sum, RowOf, HourRows, Filter;
    g := HourRowSource(db, cutoff, r);
    assert Times(g) == Milliseconds(g);
    InHourGroup(r.key, cutoff, db.audits);
  }

  lemma HourRowIs(r: Summary, audits: seq<Audit>, cutoff: int, g: seq<Audit>)
    requires r.key.period == Hour && r.key.project != "" && r.key.start % 3_600_000_000 == 0
    requires |g| > 0 && Picks(audits, Chosen(InHour(r.key, cutoff), audits), g) && RequestColumns(r, g)
    requires r.p95Ms == Percentile.P95(Milliseconds(g))
    ensures HourRowFrom(r, audits, cutoff)
  {
    InHourChosen(r.key, cutoff, audits);
    assert Milliseconds(g) == seq(|g|, i requires 0 <= i < |g| => g[i].responseMs);
    hide RequestColumns, Picks, Chosen, Percentile.P95, Milliseconds;
  }

  lemma HourRowMeans(db: Db, cutoff: int, r: Summary)
    requires r in HourRows(db, cutoff)
    ensures HourRowFrom(r, db.audits, cutoff)
  {
    hide *;
    var g := HourRowParts(db, cutoff, r);
    RequestCount(g);
    MeanTimes(r.key, Sum(AuditTotals, g), Percentile.P95(Milliseconds(g)));
    RowOfRequests(r.key, g, Percentile.P95(Milliseconds(g)));
    FilterPicks(InHour(r.key, cutoff), db.audits);
    HourRowIs(r, db.audits, cutoff, g);
  }

  lemma RequestCount(g: seq<Audit>)
    ensures Sum(AuditTotals, g).events == |g| && |Milliseconds(g)| == |g|
  {
    AuditSums(g);
  }

  /** What ON CONFLICT DO NOTHING leaves: the old rows, and new ones of new keys. */
  lemma StoreAppends(db: Db, rows: seq<Summary>)
    requires UniqueKeys(rows)
    ensures var (after, n) := (Store(db, rows), |db.summaries|);
            && after.audits == db.audits && n <= |after.summaries| && after.summaries[..n] == db.summaries
            && NewKeys(after.summaries, n) && forall j :: n <= j < |after.summaries| ==> after.summaries[j] in rows
  {
    var added := Filter(Missing(KeySet(db.summaries)), rows);
    var all := db.summaries + added;
    FilterUnique(Missing(KeySet(db.summaries)), rows);
    FilterMembers(Missing(KeySet(db.summaries)), rows);
    forall j | 0 <= j < |added| ensures added[j] in rows && added[j].key !in KeySet(db.summaries) {
      assert added[j] in added;
    }
    hide Filter;
    forall i, j | 0 <= i < j < |all| && |db.summaries| <= j ensures all[i].key != all[j].key {
      if i < |db.summaries| { assert all[i] in db.summaries; }
    }
  }

  lemma HourStoredMeans(a: Audit, rows: seq<Summary>)
    requires a.project.Some? && exists r :: r in rows && r.key == HourKey(a)
    ensures HourStoredFor(a, rows)
  {
    var r :| r in rows && r.key == HourKey(a);
    HourOf(a.timestamp, TruncHour(a.timestamp));
    hide TruncHour;
  }

  /** INSERT of hours: every bucket of old requests that was not stored gets one row,
      made of all of them, and nothing else changes. */
  lemma InsertHoursMeans(db: Db, cutoff: int)
    ensures HoursStored(db, InsertHours(db, cutoff), cutoff)
  {
    var after := InsertHours(db, cutoff);
    GroupKeysUnique(HourKey, HourRow, Filter(OldAudit(cutoff), db.audits));
    StoreAppends(db, HourRows(db, cutoff));
    Laws.StoreKeepsKeys(db, HourRows(db, cutoff));
    hide HourRows, Store, HourRowFrom, NewKeys, HourStoredFor, HourKey;
    forall j | |db.summaries| <= j < |after.summaries| ensures HourRowFrom(after.summaries[j], db.audits, cutoff) {
      HourRowMeans(db, cutoff, after.summaries[j]);
    }
    forall a | a in db.audits && a.eventType == "http" && a.project.Some? && a.project.value != "" && a.timestamp < cutoff
      ensures HourStoredFor(a, after.summaries)
    {
      Laws.OldAuditHasRow(db, cutoff, a);
      HourStoredMeans(a, after.summaries);
    }
  }

  // ----- INSERT of days

  ghost predicate CountsAdd(r: Summary, g: seq<Summary>) {
    && r.count == SumInts(seq(|g|, i requires 0 <= i < |g| => g[i].count))
    && r.s2 == SumInts(seq(|g|, i requires 0 <= i < |g| => g[i].s2))
    && r.s3 == SumInts(seq(|g|, i requires 0 <= i < |g| => g[i].s3))
    && r.s4 == SumInts(seq(|g|, i requires 0 <= i < |g| => g[i].s4))
    && r.s5 == SumInts(seq(|g|, i requires 0 <= i < |g| => g[i].s5))
  }

  ghost predicate TimesAdd(r: Summary, g: seq<Summary>) {
    r.avgMs * r.count as real == SumReals(seq(|g|, i requires 0 <= i < |g| => g[i].avgMs * g[i].count as real))
  }

  ghost predicate HasLargestP95(r: Summary, g: seq<Summary>) {
    (forall i :: 0 <= i < |g| ==> g[i].p95Ms <= r.p95Ms) && exists i :: 0 <= i < |g| && g[i].p95Ms == r.p95Ms
  }

  /** The columns of a day row, from the hour rows it stands for. */
  ghost predicate HourColumns(r: Summary, g: seq<Summary>) {
    CountsAdd(r, g) && TimesAdd(r, g) && HasLargestP95(r, g)
  }

  /** `r` is made of the old hour rows of one project, service and day. */
  ghost predicate DayRowFrom(r: Summary, rows: seq<Summary>, cutoff: int) {
    var b := set i | 0 <= i < |rows| && rows[i].key.period == Hour && rows[i].key.project == r.key.project &&
                     rows[i].key.service == r.key.service && rows[i].key.start < cutoff &&
                     r.key.start <= rows[i].key.start < r.key.start + 86_400_000_000;
    && r.key.period == Day && r.key.start % 86_400_000_000 == 0
    && exists g: seq<Summary> :: |g| > 0 && Picks(rows, b, g) && HourColumns(r, g)
  }

  ghost predicate DayStoredFor(h: Summary, rows: seq<Summary>) {
    exists r :: r in rows && r.key.period == Day && r.key.project == h.key.project && r.key.service == h.key.service &&
                r.key.start % 86_400_000_000 == 0 && r.key.start <= h.key.start < r.key.start + 86_400_000_000
  }

  ghost predicate DaysStored(before: Db, after: Db, cutoff: int) {
    var n := |before.summaries|;
    && after.audits == before.audits
    && n <= |after.summaries| && after.summaries[..n] == before.summaries && NewKeys(after.summaries, n)
    && (forall j :: n <= j < |after.summaries| ==> DayRowFrom(after.summaries[j], before.summaries, cutoff))
    && forall h | h in before.summaries && h.key.period == Hour && h.key.start < cutoff :: DayStoredFor(h, after.summaries)
  }

  lemma DayOfStart(t: int, start: int)
    requires start % 86_400_000_000 == 0
    ensures TruncDay(t) == start <==> start <= t < start + 86_400_000_000
  {
    var q := t / 86_400_000_000;
    assert TruncDay(t) == q * 86_400_000_000;
  }

  function InDay(key: Key, cutoff: int): Summary -> bool {
    (r: Summary) => DayKey(r) == key && OldHour(cutoff)(r)
  }

  lemma InDayMeans(key: Key, cutoff: int, r: Summary)
    requires key.period == Day && key.start % 86_400_000_000 == 0
    ensures InDay(key, cutoff)(r) <==>
            r.key.period == Hour && r.key.project == key.project && r.key.service == key.service && r.key.start < cutoff &&
            key.start <= r.key.start < key.start + 86_400_000_000
  {
    DayOfStart(r.key.start, key.start);
    assert DayKey(r) == Key(TruncDay(r.key.start), Day, r.key.project, r.key.service);
    assert OldHour(cutoff)(r) <==> r.key.period == Hour && r.key.start < cutoff;
    hide TruncDay, DayKey, OldHour;
  }

  lemma InDayChosen(key: Key, cutoff: int, rows: seq<Summary>)
    requires key.period == Day && key.start % 86_400_000_000 == 0
    ensures Chosen(InDay(key, cutoff), rows) ==
            set i | 0 <= i < |rows| && rows[i].key.period == Hour && rows[i].key.project == key.project &&
                    rows[i].key.service == key.service && rows[i].key.start < cutoff &&
                    key.start <= rows[i].key.start < key.start + 86_400_000_000
  {
    hide InDay;
    forall i | 0 <= i < |rows| { InDayMeans(key, cutoff, rows[i]); }
  }

  lemma InDayGroup(key: Key, cutoff: int, rows: seq<Summary>)
    ensures Group(DayKey, key, Filter(OldHour(cutoff), rows)) == Filter(InDay(key, cutoff), rows)
  {
    hide DayKey, OldHour, Filter;
    FilterTwice(HasKey(DayKey, key), OldHour(cutoff), InDay(key, cutoff), rows);
  }

  /** A column of the totals that adds a column of the rows. */
  lemma {:induction false} ColumnAdds(column: Totals -> int, of: Summary -> int, g: seq<Summary>)
    requires column(ZERO) == 0 && forall a, b :: column(Plus(a, b)) == column(a) + column(b)
    requires forall r :: column(SummaryTotals(r)) == of(r)
    ensures column(Sum(SummaryTotals, g)) == SumInts(seq(|g|, i requires 0 <= i < |g| => of(g[i])))
  {
    hide SummaryTotals, Plus;
    if |g| > 0 {
      var t, all := g[..|g| - 1], seq(|g|, i requires 0 <= i < |g| => of(g[i]));
      ColumnAdds(column, of, t);
      assert all[..|t|] == seq(|t|, i requires 0 <= i < |t| => of(t[i]));
    }
  }

  function TimeOf(r: Summary): real { r.avgMs * r.count as real }

  function TimesOf(g: seq<Summary>): seq<real> { seq(|g|, i requires 0 <= i < |g| => TimeOf(g[i])) }

  lemma {:induction false} AverageAdds(g: seq<Summary>)
    ensures Sum(SummaryTotals, g).ms == SumReals(TimesOf(g))
  {
    if |g| > 0 {
      var t, e := g[..|g| - 1], g[|g| - 1];
      AverageAdds(t);
      assert SummaryTotals(e).ms == TimeOf(e);
      hide TimeOf, SummaryTotals;
      assert TimesOf(g)[..|t|] == TimesOf(t);
    }
  }

  lemma TimesAre(g: seq<Summary>)
    ensures TimesOf(g) == seq(|g|, i requires 0 <= i < |g| => g[i].avgMs * g[i].count as real)
  {
  }

  lemma {:induction false} LargestP95(g: seq<Summary>)
    requires |g| > 0
    ensures forall i :: 0 <= i < |g| ==> g[i].p95Ms <= MaxP95(g)
    ensures exists i :: 0 <= i < |g| && g[i].p95Ms == MaxP95(g)
  {
    if |g| == 1 {
      assert g[0].p95Ms == MaxP95(g);
    } else {
      var t := g[..|g| - 1];
      LargestP95(t);
      var i :| 0 <= i < |t| && t[i].p95Ms == MaxP95(t);
      assert g[i].p95Ms == MaxP95(t);
      assert g[|g| - 1].p95Ms == MaxP95(g) || g[i].p95Ms == MaxP95(g);
    }
  }

  lemma SummaryColumns(g: seq<Summary>)
    ensures var t := Sum(SummaryTotals, g);
            && t.events == SumInts(seq(|g|, i requires 0 <= i < |g| => g[i].count))
            && t.s2 == SumInts(seq(|g|, i requires 0 <= i < |g| => g[i].s2))
            && t.s3 == SumInts(seq(|g|, i requires 0 <= i < |g| => g[i].s3))
            && t.s4 == SumInts(seq(|g|, i requires 0 <= i < |g| => g[i].s4))
            && t.s5 == SumInts(seq(|g|, i requires 0 <= i < |g| => g[i].s5))
  {
    hide Sum, SumInts;
    var (c, c2, c3, c4, c5) := ((r: Summary) => r.count, (r: Summary) => r.s2, (r: Summary) => r.s3, (r: Summary) => r.s4, (r: Summary) => r.s5);
    ColumnAdds((t: Totals) => t.events, c, g);
    ColumnAdds((t: Totals) => t.s2, c2, g);
    ColumnAdds((t: Totals) => t.s3, c3, g);
    ColumnAdds((t: Totals) => t.s4, c4, g);
    ColumnAdds((t: Totals) => t.s5, c5, g);
    assert seq(|g|, i requires 0 <= i < |g| => c(g[i])) == seq(|g|, i requires 0 <= i < |g| => g[i].count);
    assert seq(|g|, i requires 0 <= i < |g| => c2(g[i])) == seq(|g|, i requires 0 <= i < |g| => g[i].s2);
    assert seq(|g|, i requires 0 <= i < |g| => c3(g[i])) == seq(|g|, i requires 0 <= i < |g| => g[i].s3);
    assert seq(|g|, i requires 0 <= i < |g| => c4(g[i])) == seq(|g|, i requires 0 <= i < |g| => g[i].s4);
    assert seq(|g|, i requires 0 <= i < |g| => c5(g[i])) == seq(|g|, i requires 0 <= i < |g| => g[i].s5);
  }

  lemma TotalsAdd(r: Summary, g: seq<Summary>)
    requires var t := Sum(SummaryTotals, g);
             r.count == t.events && r.s2 == t.s2 && r.s3 == t.s3 && r.s4 == t.s4 && r.s5 == t.s5
    ensures CountsAdd(r, g)
  {
    SummaryColumns(g);
    hide Sum, SumInts;
  }

  lemma AveragesAdd(r: Summary, g: seq<Summary>)
    requires r.avgMs * r.count as real == Sum(SummaryTotals, g).ms
    ensures TimesAdd(r, g)
  {
    AverageAdds(g);
    TimesAre(g);
    hide Sum, SumReals, TimesOf;
  }

  lemma RowOfHours(key: Key, g: seq<Summary>)
    requires |g| > 0 && Sum(SummaryTotals, g).events != 0
    ensures HourColumns(DayRow(key, g), g)
  {
    hide CountsAdd, TimesAdd, Sum, RowOf, MaxP95;
    MeanTimes(key, Sum(SummaryTotals, g), MaxP95(g));
    TotalsAdd(DayRow(key, g), g);
    AveragesAdd(DayRow(key, g), g);
    LargestP95(g);
  }

  lemma DayRowParts(db: Db, cutoff: int, r: Summary) returns (g: seq<Summary>)
    requires Valid(db) && r in DayRows(db, cutoff)
    ensures |g| > 0 && g == Filter(InDay(r.key, cutoff), db.summaries) && r == DayRow(r.key, g)
    ensures r.key.period == Day && r.key.start % 86_400_000_000 == 0 && Sum(SummaryTotals, g).events != 0
  {
    hide Sum, DayRow, DayRows, Filter;
    g := DayRowSource(db, cutoff, r);
    SummarySums(g);
    InDayGroup(r.key, cutoff, db.summaries);
  }

  lemma DayRowIs(r: Summary, rows: seq<Summary>, cutoff: int, g: seq<Summary>)
    requires r.key.period == Day && r.key.start % 86_400_000_000 == 0
    requires |g| > 0 && Picks(rows, Chosen(InDay(r.key, cutoff), rows), g) && HourColumns(r, g)
    ensures DayRowFrom(r, rows, cutoff)
  {
    InDayChosen(r.key, cutoff, rows);
    hide HourColumns, Picks, Chosen;
  }

  lemma DayRowMeans(db: Db, cutoff: int, r: Summary)
    requires Valid(db) && r in DayRows(db, cutoff)
    ensures DayRowFrom(r, db.summaries, cutoff)
  {
    hide *;
    var g := DayRowParts(db, cutoff, r);
    RowOfHours(r.key, g);
    FilterPicks(InDay(r.key, cutoff), db.summaries);
    DayRowIs(r, db.summaries, cutoff, g);
  }

  lemma DayStoredMeans(h: Summary, rows: seq<Summary>)
    requires exists r :: r in rows && r.key == DayKey(h)
    ensures DayStoredFor(h, rows)
  {
    var r :| r in rows && r.key == DayKey(h);
    DayOfStart(h.key.start, TruncDay(h.key.start));
    hide TruncDay;
  }

  /** INSERT of days: every day of old hour rows that was not stored gets one row,
      made of all of them, and nothing else changes. */
  lemma InsertDaysMeans(db: Db, cutoff: int)
    requires Valid(db)
    ensures DaysStored(db, InsertDays(db, cutoff), cutoff)
  {
    var after := InsertDays(db, cutoff);
    GroupKeysUnique(DayKey, DayRow, Filter(OldHour(cutoff), db.summaries));
    StoreAppends(db, DayRows(db, cutoff));
    Laws.StoreKeepsKeys(db, DayRows(db, cutoff));
    hide DayRows, Store, DayRowFrom, NewKeys, DayStoredFor, DayKey, Valid;
    forall j | |db.summaries| <= j < |after.summaries| ensures DayRowFrom(after.summaries[j], db.summaries, cutoff) {
      DayRowMeans(db, cutoff, after.summaries[j]);
    }
    forall h | h in db.summaries && h.key.period == Hour && h.key.start < cutoff ensures DayStoredFor(h, after.summaries) {
      Laws.OldHourHasRow(db, cutoff, h);
      DayStoredMeans(h, after.summaries);
    }
  }

  // ----- the DELETEs

  /** The raw rows left are, in order, all but the old requests with a project. */
  ghost predicate AuditsDeleted(before: Db, after: Db, cutoff: int) {
    after.summaries == before.summaries &&
    Picks(before.audits,
          (set i | 0 <= i < |before.audits| &&
                   !(before.audits[i].eventType == "http" && before.audits[i].project.Some? &&
                     before.audits[i].project.value != "" && before.audits[i].timestamp < cutoff)),
          after.audits)
  }

  /** The summaries left are, in order, all but the old hour rows. */
  ghost predicate HoursDeleted(before: Db, after: Db, cutoff: int) {
    after.audits == before.audits &&
    Picks(before.summaries,
          (set i | 0 <= i < |before.summaries| &&
                   !(before.summaries[i].key.period == Hour && before.summaries[i].key.start < cutoff)),
          after.summaries)
  }

  lemma DeletesMean(db: Db, cutoff: int)
    ensures AuditsDeleted(db, DeleteAudits(db, cutoff), cutoff)
    ensures HoursDeleted(db, DeleteHours(db, cutoff), cutoff)
  {
    FilterPicks(KeptAudit(cutoff), db.audits);
    FilterPicks(KeptSummary(cutoff), db.summaries);
    assert Chosen(KeptAudit(cutoff), db.audits) ==
           set i | 0 <= i < |db.audits| &&
                   !(db.audits[i].eventType == "http" && db.audits[i].project.Some? &&
                     db.audits[i].project.value != "" && db.audits[i].timestamp < cutoff);
    assert Chosen(KeptSummary(cutoff), db.summaries) ==
           set i | 0 <= i < |db.summaries| &&
                   !(db.summaries[i].key.period == Hour && db.summaries[i].key.start < cutoff);
    hide Filter, Picks;
  }
}
