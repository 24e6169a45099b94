/** What a stored row says about the requests it replaced, and what goes wrong when
    cutoffs do not lie on period boundaries. */
module TieringExact {
  import opened Options
  import opened Rows
  import opened Tiers
  import opened TieringRun
  import Clock = TieringClock
  import History = TieringHistory
  import Laws = TieringLaws
  import Percentile

  lemma {:induction false} SumSingle(w: Summary -> Totals, rows: seq<Summary>, r: Summary)
    requires UniqueKeys(rows) && r in rows
    requires forall x :: x in rows && x.key != r.key ==> w(x) == ZERO
    ensures Sum(w, rows) == w(r)
  {
    var front, last := rows[..|rows| - 1], rows[|rows| - 1];
    assert rows == front + [last];
    forall x | x in front ensures x.key != last.key {
      var i :| 0 <= i < |front| && front[i] == x;
      assert rows[i].key != rows[|rows| - 1].key;
    }
    if last.key == r.key {
      assert r == last;
      SumZero(w, front);
      PlusMoves(ZERO, w(r), ZERO);
    } else {
      assert r in front;
      SumSingle(w, front, r);
      PlusMoves(ZERO, w(r), ZERO);
    }
  }

  /** The choice of one bucket. */
  function Only(key: Key): Choice { (k: Key) => k == key }

  /** The requests behind a row. */
  function BehindRow(key: Key): Fate -> bool {
    (f: Fate) => if key.period == Hour then f.hour && HourKey(f.audit) == key else f.day && AuditDay(f.audit) == key
  }

  function Behind(key: Key, fates: seq<Fate>): seq<Audit> { Mapped(AuditOf(), Filter(BehindRow(key), fates)) }

  lemma RowAlone(db: Db, r: Summary)
    requires Valid(db) && r in db.summaries
    ensures r.count > 0
    ensures r.key.period == Hour ==> Sum(HourWeight(Only(r.key)), db.summaries) == SummaryTotals(r)
    ensures r.key.period == Day ==> Sum(DayWeight(Only(r.key)), db.summaries) == SummaryTotals(r)
  {
    assert WellFormedRow(r);
    hide SummaryTotals;
    if r.key.period == Hour {
      SumSingle(HourWeight(Only(r.key)), db.summaries, r);
    } else {
      SumSingle(DayWeight(Only(r.key)), db.summaries, r);
    }
  }

  lemma BehindSum(key: Key, fates: seq<Fate>)
    ensures key.period == Hour ==> Sum(HourFate(Only(key)), fates) == Sum(AuditTotals, Behind(key, fates))
    ensures key.period == Day ==> Sum(DayFate(Only(key)), fates) == Sum(AuditTotals, Behind(key, fates))
  {
    var w := (f: Fate) => AuditTotals(f.audit);
    SumMapped(AuditTotals, AuditOf(), w, Filter(BehindRow(key), fates));
    assert forall a :: HourKey(a).period == Hour && AuditDay(a).period == Day;
    hide AuditTotals, HourKey, AuditDay;
    if key.period == Hour {
      SumFilter(w, BehindRow(key), HourFate(Only(key)), fates);
    } else {
      SumFilter(w, BehindRow(key), DayFate(Only(key)), fates);
    }
  }

  lemma RowFromTotals(r: Summary, g: seq<Audit>)
    requires SummaryTotals(r) == Sum(AuditTotals, g) && r.count > 0
    ensures r == RowOf(r.key, Sum(AuditTotals, g), r.p95Ms) && r.count == |g|
  {
    AuditSums(g);
    assert Sum(AuditTotals, g).ms / r.count as real == r.avgMs;
  }

  /** Raw to hour to day is one aggregation: in any run of any statements a stored
      row carries the count, status classes and mean response time that direct
      aggregation of the requests behind it gives. */
  lemma RowIsDirectAggregate(steps: seq<Step>, r: Summary)
    requires r in Run(steps).db.summaries
    ensures var behind := Behind(r.key, Run(steps).fates);
            r == RowOf(r.key, Sum(AuditTotals, behind), r.p95Ms) && r.count == |behind|
  {
    RunTracks(steps);
    FatesHold(Only(r.key), steps);
    var st := Run(steps);
    assert Valid(st.db);
    HeldMeans(st, Only(r.key));
    hide *;
    RowAlone(st.db, r);
    BehindSum(r.key, st.fates);
    RowFromTotals(r, Behind(r.key, st.fates));
  }

  /** All requests of one service of one project on one day. */
  function OfDay(key: Key): Audit -> bool { (a: Audit) => Tierable(a) && AuditDay(a) == key }

  /** A day whose row is stored lies wholly before an hourly cutoff on the day. */
  lemma WholeDayRolled(epoch: int, k: Clock.Timed, key: Key, a: Audit)
    requires Clock.Inv(epoch, k) && Clock.OnBoundaries(k.past)
    requires key in KeySet(k.db.summaries) && key.period == Day && OfDay(key)(a)
    ensures Clock.DayPlace(k, a)
  {
    Clock.AlignedNeverCuts(k.past, a);
    assert Clock.DayReached(k.past.arrived, k.marks.daysIn, key);
    hide Tierable, Clock.HourCut, Clock.DayCut, KeySet, Clock.HourKeysMatch, Valid, Clock.HourEnd;
    var b :| b in k.past.arrived && Tierable(b) && TruncHour(b.timestamp) < k.marks.daysIn && AuditDay(b) == key;
    Clock.TruncMonotone(epoch, b.timestamp);
    Clock.SameDaySameSide(TruncHour(b.timestamp), TruncHour(a.timestamp), k.marks.daysIn);
  }

  lemma {:induction false} BehindAll(key: Key, fates: seq<Fate>)
    requires key.period == Day && forall f :: f in fates ==> f.day == OfDay(key)(f.audit) || AuditDay(f.audit) != key
    ensures Behind(key, fates) == Filter(OfDay(key), Mapped(AuditOf(), fates))
  {
    if |fates| > 0 {
      var t, f := fates[..|fates| - 1], fates[|fates| - 1];
      assert fates == t + [f];
      BehindAll(key, t);
      FilterLast(BehindRow(key), t, f);
      MappedLast(AuditOf(), t, f);
      FilterLast(OfDay(key), Mapped(AuditOf(), t), f.audit);
      if BehindRow(key)(f) { MappedLast(AuditOf(), Filter(BehindRow(key), t), f); }
      hide Tierable, AuditDay, Filter, Mapped;
    }
  }

  lemma DayBehindIff(epoch: int, k: Clock.Timed, key: Key, f: Fate)
    requires Clock.Inv(epoch, k) && Clock.OnBoundaries(k.past) && Clock.Placed(k, f)
    requires key in KeySet(k.db.summaries) && key.period == Day
    ensures f.day == OfDay(key)(f.audit) || AuditDay(f.audit) != key
  {
    hide Clock.Inv, Clock.OnBoundaries, KeySet, Clock.HourCut, Clock.DayCut, Tierable, AuditDay, KeptAudit, TruncHour;
    if OfDay(key)(f.audit) { WholeDayRolled(epoch, k, key, f.audit); }
  }

  /** On period boundaries a day row is the direct aggregate of all the day's
      original requests. */
  lemma AlignedDayRow(epoch: int, steps: seq<Step>, r: Summary)
    requires Clock.OnTime(epoch, steps) && Clock.OnBoundaries(Clock.Timeline(epoch, steps).past)
    requires r in Run(steps).db.summaries && r.key.period == Day
    ensures var originals := Filter(OfDay(r.key), Arrived(Run(steps)));
            r == RowOf(r.key, Sum(AuditTotals, originals), r.p95Ms) && r.count == |originals|
  {
    var (st, k) := (Run(steps), Clock.Timeline(epoch, steps));
    Clock.RunKeepsInv(epoch, steps);
    Clock.SameRun(epoch, steps);
    Clock.FatesFollowCutoffs(epoch, steps);
    RowIsDirectAggregate(steps, r);
    assert r.key in KeySet(k.db.summaries);
    assert Arrived(st) == Mapped(AuditOf(), st.fates);
    hide *;
    forall f | f in st.fates ensures f.day == OfDay(r.key)(f.audit) || AuditDay(f.audit) != r.key {
      DayBehindIff(epoch, k, r.key, f);
    }
    BehindAll(r.key, st.fates);
  }

  // ----- percentiles

  /** Matching raw response times and stored p95 values all lie in [lo, hi]. */
  ghost predicate Within(db: Db, q: History.Query, lo: real, hi: real) {
    && (forall a :: a in db.audits && History.AuditMatches(q, a) ==> lo <= a.responseMs as real <= hi)
    && (forall r :: r in db.summaries && History.SummaryMatches(q, r) ==> lo <= r.p95Ms <= hi)
  }

  lemma HourRowWithin(db: Db, q: History.Query, lo: real, hi: real, c: int, r: Summary)
    requires History.Aligned(q) && Within(db, q, lo, hi)
    requires r in HourRows(db, c) && History.SummaryMatches(q, r)
    ensures lo <= r.p95Ms <= hi
  {
    var g := HourRowSource(db, c, r);
    forall x | x in Times(g) ensures lo <= x as real <= hi {
      var i :| 0 <= i < |Times(g)| && Times(g)[i] == x;
      var a := g[i];
      assert a in g;
      DayWithin(a.timestamp, q.from);
      DayWithin(a.timestamp, q.to);
      HourWithin(a.timestamp, q.from);
      HourWithin(a.timestamp, q.to);
      assert History.AuditMatches(q, a);
    }
    Percentile.P95Between(Times(g), lo, hi);
  }

  lemma {:induction false} MaxP95Within(g: seq<Summary>, lo: real, hi: real)
    requires |g| > 0 && forall r :: r in g ==> lo <= r.p95Ms <= hi
    ensures lo <= MaxP95(g) <= hi
  {
    if |g| > 1 { MaxP95Within(g[..|g| - 1], lo, hi); }
    assert g[|g| - 1] in g;
  }

  lemma DayRowWithin(db: Db, q: History.Query, lo: real, hi: real, c: int, r: Summary)
    requires Valid(db) && History.Aligned(q) && Within(db, q, lo, hi)
    requires r in DayRows(db, c) && History.SummaryMatches(q, r)
    ensures lo <= r.p95Ms <= hi
  {
    var g := DayRowSource(db, c, r);
    forall h | h in g ensures lo <= h.p95Ms <= hi {
      DayWithin(h.key.start, q.from);
      DayWithin(h.key.start, q.to);
      assert History.SummaryMatches(q, h);
    }
    MaxP95Within(g, lo, hi);
  }

  lemma RowsKeepWithin(db: Db, rows: seq<Summary>, q: History.Query, lo: real, hi: real)
    requires Within(db, q, lo, hi) && forall r :: r in rows && History.SummaryMatches(q, r) ==> lo <= r.p95Ms <= hi
    ensures Within(Store(db, rows), q, lo, hi)
  {
    Laws.StoreKeepsKeys(db, rows);
    hide History.AuditMatches, History.SummaryMatches, KeySet, Filter;
  }

  lemma InsertsKeepWithin(db: Db, c: int, q: History.Query, lo: real, hi: real)
    requires Valid(db) && History.Aligned(q) && Within(db, q, lo, hi)
    ensures Within(InsertHours(db, c), q, lo, hi) && Within(InsertDays(db, c), q, lo, hi)
  {
    hide History.AuditMatches, History.SummaryMatches, History.Aligned, Within, Valid, HourRows, DayRows, Store;
    forall r | r in HourRows(db, c) && History.SummaryMatches(q, r) ensures lo <= r.p95Ms <= hi {
      HourRowWithin(db, q, lo, hi, c, r);
    }
    forall r | r in DayRows(db, c) && History.SummaryMatches(q, r) ensures lo <= r.p95Ms <= hi {
      DayRowWithin(db, q, lo, hi, c, r);
    }
    RowsKeepWithin(db, HourRows(db, c), q, lo, hi);
    RowsKeepWithin(db, DayRows(db, c), q, lo, hi);
  }

  lemma DeletesKeepWithin(db: Db, c: int, q: History.Query, lo: real, hi: real)
    requires Within(db, q, lo, hi)
    ensures Within(DeleteAudits(db, c), q, lo, hi) && Within(DeleteHours(db, c), q, lo, hi)
  {
    FilterMembers(KeptAudit(c), db.audits);
    FilterMembers(KeptSummary(c), db.summaries);
    hide History.AuditMatches, History.SummaryMatches, Filter, KeptAudit, KeptSummary;
  }

  lemma StepKeepsWithin(db: Db, step: Step, q: History.Query, lo: real, hi: real)
    requires Valid(db) && History.Aligned(q) && Within(db, q, lo, hi)
    requires step.Arrive? && History.AuditMatches(q, step.audit) ==> lo <= step.audit.responseMs as real <= hi
    ensures Valid(Execute(db, step)) && Within(Execute(db, step), q, lo, hi)
  {
    if step.Arrive? {
      hide History.AuditMatches, History.SummaryMatches;
    } else {
      hide Valid, Within, History.Aligned, InsertHours, InsertDays, DeleteAudits, DeleteHours;
      StatementsKeepTablesValid(db, step.cutoff);
      InsertsKeepWithin(db, step.cutoff, q, lo, hi);
      DeletesKeepWithin(db, step.cutoff, q, lo, hi);
    }
  }

  /** Whatever the cutoffs and whatever fails, every stored p95 stays between
      the smallest and largest response time that arrived for its day. */
  lemma {:induction false} RunKeepsP95Within(steps: seq<Step>, q: History.Query, lo: real, hi: real)
    requires History.Aligned(q)
    requires forall a :: a in Arrived(Run(steps)) && History.AuditMatches(q, a) ==> lo <= a.responseMs as real <= hi
    ensures Valid(Run(steps).db)
    ensures forall r :: r in Run(steps).db.summaries && History.SummaryMatches(q, r) ==> lo <= r.p95Ms <= hi
    ensures Within(Run(steps).db, q, lo, hi)
  {
    if |steps| > 0 {
      var front, step := steps[..|steps| - 1], steps[|steps| - 1];
      ArrivedGrows(Run(front), step);
      hide Arrived, History.AuditMatches, History.SummaryMatches, Execute, Valid;
      RunKeepsP95Within(front, q, lo, hi);
      StepKeepsWithin(Run(front).db, step, q, lo, hi);
    }
  }

  lemma ArrivedGrows(st: State, step: Step)
    ensures forall a :: a in Arrived(st) ==> a in Arrived(Apply(st, step))
    ensures step.Arrive? ==> step.audit in Arrived(Apply(st, step))
  {
    var moved := Mapped(Move(KeySet(st.db.summaries), step), st.fates);
    var next := Arrived(Apply(st, step));
    forall i | 0 <= i < |st.fates| ensures next[i] == Arrived(st)[i] {
      MoveKeepsAudit(KeySet(st.db.summaries), step, st.fates[i]);
    }
    forall a | a in Arrived(st) ensures a in next {
      var i :| 0 <= i < |st.fates| && Arrived(st)[i] == a;
      assert next[i] == a;
    }
    if step.Arrive? { assert next[|st.fates|] == step.audit; }
    hide Execute, KeySet, Move;
  }

  // ----- cutoffs as the clock gives them

  const MINUTE: int := 60_000_000

  function Request(minute: int): Audit {
    Audit(minute * MINUTE, "http", Some("p"), "s", 200, 1)
  }

  /** The job's cutoffs are the current time less whole days, not period
      boundaries.  Two requests of one hour, a first cycle whose cutoff falls
      between them and a second after both: the second request is gone. */
  lemma UnalignedCutoffLosesRequests()
    ensures var db := Db([Request(10), Request(50)], []);
            Laws.Total(db).events == 2 &&
            Laws.Total(HourStage(HourStage(db, 30 * MINUTE), 90 * MINUTE)).events == 1
  {
    hide Laws.Total, Sum, Filter;
    var db := Db([Request(10), Request(50)], []);
    var first := HourStage(db, 30 * MINUTE);
    HalfHourStage(db);
    OnlyRequests(db);
    Laws.HourStageDeficit(first, 90 * MINUTE);
    OneBlocked(first, Laws.BlockedAudit(KeySet(first.summaries), 90 * MINUTE));
  }

  lemma OnlyRequests(db: Db)
    requires db.summaries == [] && forall a :: a in db.audits ==> Tierable(a)
    ensures Laws.Total(db).events == |db.audits|
  {
    SumCongruent(Laws.TierTotals, AuditTotals, db.audits);
    AuditSums(db.audits);
  }

  lemma OneBlocked(db: Db, blocked: Audit -> bool)
    requires db.audits == [Request(50)] && blocked(Request(50))
    ensures Sum(AuditTotals, Filter(blocked, db.audits)).events == 1
  {
    FilterAll(blocked, db.audits);
    AuditSums(db.audits);
  }

  lemma HalfHourStage(db: Db)
    requires db == Db([Request(10), Request(50)], [])
    ensures HourStage(db, 30 * MINUTE).audits == [Request(50)]
    ensures Key(0, Hour, "p", "s") in KeySet(HourStage(db, 30 * MINUTE).summaries)
    ensures Laws.Total(HourStage(db, 30 * MINUTE)) == Laws.Total(db)
  {
    FirstStageLossless(db, 30 * MINUTE);
    assert db.audits[0] == Request(10);
    HourStored(db, 30 * MINUTE, Request(10));
    assert HourKey(Request(10)) == Key(0, Hour, "p", "s");
    LateRemains(KeptAudit(30 * MINUTE));
  }

  lemma LateRemains(kept: Audit -> bool)
    requires !kept(Request(10)) && kept(Request(50))
    ensures Filter(kept, [Request(10), Request(50)]) == [Request(50)]
  {
    assert [Request(10), Request(50)] == [Request(10)] + [Request(50)];
    FilterLast(kept, [Request(10)], Request(50));
    assert [] + [Request(10)] == [Request(10)];
    FilterLast(kept, [], Request(10));
  }

  lemma FirstStageLossless(db: Db, c: int)
    requires db.summaries == []
    ensures Laws.Total(HourStage(db, c)) == Laws.Total(db)
  {
    Laws.HourStageLosslessIff(db, c);
  }

  lemma HourStored(db: Db, c: int, a: Audit)
    requires a in db.audits && OldAudit(c)(a)
    ensures HourKey(a) in KeySet(HourStage(db, c).summaries)
  {
    Laws.OldAuditHasRow(db, c, a);
    Laws.StoreKeepsKeys(db, HourRows(db, c));
  }
}
