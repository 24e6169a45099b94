/** Laws of the two aggregation stages that hold from any stored state and for
    any cutoff: what a stage drops, and why running it again is harmless. */
module TieringLaws {
  import opened Rows
  import opened Tiers

  function TierTotals(a: Audit): Totals {
    if Tierable(a) then AuditTotals(a) else ZERO
  }

  /** Everything the tiers hold: raw rows plus what the summaries stand for. */
  function Total(db: Db): Totals {
    Plus(Sum(TierTotals, db.audits), Sum(SummaryTotals, db.summaries))
  }

  /** An old row whose target bucket is already stored. */
  function BlockedAudit(stored: set<Key>, cutoff: int): Audit -> bool {
    (a: Audit) => OldAudit(cutoff)(a) && HourKey(a) in stored
  }

  function BlockedHour(stored: set<Key>, cutoff: int): Summary -> bool {
    (r: Summary) => OldHour(cutoff)(r) && DayKey(r) in stored
  }

  /** What INSERT ... ON CONFLICT DO NOTHING adds, measured on its input. */
  lemma InsertedSum<T(!new)>(k: T -> Key, mk: (Key, seq<T>) -> Summary, s: seq<T>, stored: set<Key>,
                             w: T -> Totals, v: Summary -> Totals)
    requires forall key, g :: mk(key, g).key == key
    requires forall key :: key in Keys(k, s) ==>
               Sum(w, Group(k, key, s)) == if key in stored then ZERO else v(mk(key, Group(k, key, s)))
    ensures Sum(v, Filter(Missing(stored), GroupBy(k, mk, s))) == Sum(w, s)
  {
    var u := (r: Summary) => if r.key in stored then ZERO else v(r);
    SumFilter(v, Missing(stored), u, GroupBy(k, mk, s));
    forall key | key in Keys(k, s) ensures u(mk(key, Group(k, key, s))) == Sum(w, Group(k, key, s)) {
      assert mk(key, Group(k, key, s)).key == key;
    }
    GroupBySum(k, mk, s, w, u);
  }

  function Unblocked<T>(k: T -> Key, w: T -> Totals, stored: set<Key>): T -> Totals {
    x => if k(x) in stored then ZERO else w(x)
  }

  lemma UnblockedGroup<T(!new)>(k: T -> Key, w: T -> Totals, stored: set<Key>, key: Key, s: seq<T>)
    requires key in Keys(k, s)
    ensures Sum(Unblocked(k, w, stored), Group(k, key, s)) ==
            if key in stored then ZERO else Sum(w, Group(k, key, s))
  {
    GroupNonEmpty(k, key, s);
    if key in stored {
      SumZero(Unblocked(k, w, stored), Group(k, key, s));
    } else {
      SumCongruent(Unblocked(k, w, stored), w, Group(k, key, s));
    }
  }

  lemma HoursInserted(db: Db, cutoff: int)
    ensures var stored := KeySet(db.summaries);
            Sum(SummaryTotals, InsertHours(db, cutoff).summaries) ==
            Plus(Sum(SummaryTotals, db.summaries),
                 Sum(Unblocked(HourKey, AuditTotals, stored), Filter(OldAudit(cutoff), db.audits)))
  {
    var stored := KeySet(db.summaries);
    var s := Filter(OldAudit(cutoff), db.audits);
    forall key | key in Keys(HourKey, s)
      ensures Sum(Unblocked(HourKey, AuditTotals, stored), Group(HourKey, key, s)) ==
              if key in stored then ZERO else SummaryTotals(HourRow(key, Group(HourKey, key, s)))
    {
      UnblockedGroup(HourKey, AuditTotals, stored, key, s);
      GroupNonEmpty(HourKey, key, s);
      HourRowTotals(key, Group(HourKey, key, s));
    }
    InsertedSum(HourKey, HourRow, s, stored, Unblocked(HourKey, AuditTotals, stored), SummaryTotals);
    SumAppend(SummaryTotals, db.summaries, Filter(Missing(stored), HourRows(db, cutoff)));
  }

  lemma DaysInserted(db: Db, cutoff: int)
    requires Valid(db)
    ensures var stored := KeySet(db.summaries);
            Sum(SummaryTotals, Filter(Missing(stored), DayRows(db, cutoff))) ==
            Sum(Unblocked(DayKey, SummaryTotals, stored), Filter(OldHour(cutoff), db.summaries))
  {
    var stored := KeySet(db.summaries);
    var s := Filter(OldHour(cutoff), db.summaries);
    FilterMembers(OldHour(cutoff), db.summaries);
    forall key | key in Keys(DayKey, s)
      ensures Sum(Unblocked(DayKey, SummaryTotals, stored), Group(DayKey, key, s)) ==
              if key in stored then ZERO else SummaryTotals(DayRow(key, Group(DayKey, key, s)))
    {
      UnblockedGroup(DayKey, SummaryTotals, stored, key, s);
      GroupNonEmpty(DayKey, key, s);
      DayRowTotals(key, Group(DayKey, key, s));
    }
    InsertedSum(DayKey, DayRow, s, stored, Unblocked(DayKey, SummaryTotals, stored), SummaryTotals);
  }

  /** Kept, moved and blocked rows together weigh what all rows weigh. */
  lemma {:induction false} ThreeWaySplit<T(!new)>(
      kept: T -> bool, expired: T -> bool, blocked: T -> bool, k: T -> Key,
      stored: set<Key>, w: T -> Totals, u: T -> Totals, s: seq<T>)
    requires forall x :: x in s ==> kept(x) == !expired(x) && blocked(x) == (expired(x) && k(x) in stored)
    requires forall x :: x in s && expired(x) ==> w(x) == u(x)
    ensures Sum(w, s) == Plus(Plus(Sum(w, Filter(kept, s)), Sum(Unblocked(k, u, stored), Filter(expired, s))),
                              Sum(u, Filter(blocked, s)))
  {
    if |s| > 0 {
      var t, e := s[..|s| - 1], s[|s| - 1];
      assert s == t + [e];
      ThreeWaySplit(kept, expired, blocked, k, stored, w, u, t);
      FilterSumLast(w, kept, t, e);
      FilterSumLast(Unblocked(k, u, stored), expired, t, e);
      FilterSumLast(u, blocked, t, e);
      RegroupStep(Sum(w, Filter(kept, t)), Sum(Unblocked(k, u, stored), Filter(expired, t)),
                  Sum(u, Filter(blocked, t)), w(e));
    }
  }

  lemma RegroupStep(a: Totals, b: Totals, c: Totals, x: Totals)
    ensures Plus(Plus(Plus(a, b), c), x) == Plus(Plus(Plus(a, x), b), c)
    ensures Plus(Plus(Plus(a, b), c), x) == Plus(Plus(a, Plus(b, x)), c)
    ensures Plus(Plus(Plus(a, b), c), x) == Plus(Plus(a, b), Plus(c, x))
    ensures Plus(b, ZERO) == b
  {
  }

  lemma PlusRegroup(kept: Totals, before: Totals, moved: Totals, lost: Totals)
    ensures Plus(Plus(kept, Plus(before, moved)), lost) == Plus(Plus(Plus(kept, moved), lost), before)
    ensures Plus(Plus(before, Plus(kept, moved)), lost) == Plus(before, Plus(Plus(kept, moved), lost))
  {
  }

  /** The exact loss of the raw-to-hour stage: the deleted rows whose hour was
      already summarised, and nothing else, in every measure at once. */
  lemma HourStageDeficit(db: Db, cutoff: int)
    ensures Plus(Total(HourStage(db, cutoff)),
                 Sum(AuditTotals, Filter(BlockedAudit(KeySet(db.summaries), cutoff), db.audits))) == Total(db)
  {
    var stored := KeySet(db.summaries);
    HoursInserted(db, cutoff);
    ThreeWaySplit(KeptAudit(cutoff), OldAudit(cutoff), BlockedAudit(stored, cutoff), HourKey, stored,
                  TierTotals, AuditTotals, db.audits);
    PlusRegroup(Sum(TierTotals, Filter(KeptAudit(cutoff), db.audits)), Sum(SummaryTotals, db.summaries),
                Sum(Unblocked(HourKey, AuditTotals, stored), Filter(OldAudit(cutoff), db.audits)),
                Sum(AuditTotals, Filter(BlockedAudit(stored, cutoff), db.audits)));
  }

  lemma DayStageSummaries(db: Db, cutoff: int)
    requires Valid(db)
    ensures Sum(SummaryTotals, DayStage(db, cutoff).summaries) ==
            Plus(Sum(SummaryTotals, Filter(KeptSummary(cutoff), db.summaries)),
                 Sum(Unblocked(DayKey, SummaryTotals, KeySet(db.summaries)), Filter(OldHour(cutoff), db.summaries)))
  {
    var added := Filter(Missing(KeySet(db.summaries)), DayRows(db, cutoff));
    DaysInserted(db, cutoff);
    DayRowsAreDays(db, cutoff);
    FilterMembers(Missing(KeySet(db.summaries)), DayRows(db, cutoff));
    FilterAppend(KeptSummary(cutoff), db.summaries, added);
    FilterAll(KeptSummary(cutoff), added);
    SumAppend(SummaryTotals, Filter(KeptSummary(cutoff), db.summaries), added);
  }

  /** The exact loss of the hour-to-day stage. */
  lemma DayStageDeficit(db: Db, cutoff: int)
    requires Valid(db)
    ensures Plus(Total(DayStage(db, cutoff)),
                 Sum(SummaryTotals, Filter(BlockedHour(KeySet(db.summaries), cutoff), db.summaries))) == Total(db)
  {
    var stored := KeySet(db.summaries);
    DayStageSummaries(db, cutoff);
    ThreeWaySplit(KeptSummary(cutoff), OldHour(cutoff), BlockedHour(stored, cutoff), DayKey, stored,
                  SummaryTotals, SummaryTotals, db.summaries);
    PlusRegroup(Sum(SummaryTotals, Filter(KeptSummary(cutoff), db.summaries)), Sum(TierTotals, db.audits),
                Sum(Unblocked(DayKey, SummaryTotals, stored), Filter(OldHour(cutoff), db.summaries)),
                Sum(SummaryTotals, Filter(BlockedHour(stored, cutoff), db.summaries)));
  }

  lemma DayRowsAreDays(db: Db, cutoff: int)
    ensures forall r :: r in DayRows(db, cutoff) ==> r.key.period == Day
  {
    forall r | r in DayRows(db, cutoff) ensures r.key.period == Day {
      var s := Filter(OldHour(cutoff), db.summaries);
      var key := GroupByRow(DayKey, DayRow, s, r);
      GroupNonEmpty(DayKey, key, s);
      assert Group(DayKey, key, s)[0] in Group(DayKey, key, s);
    }
  }

  lemma NothingLostIff(after: Totals, lost: Totals, before: Totals)
    requires Plus(after, lost) == before && (lost == ZERO || lost.events > 0)
    ensures after == before <==> lost == ZERO
  {
  }

  /** A stage loses no request exactly when no deleted row met a stored bucket. */
  lemma HourStageLosslessIff(db: Db, cutoff: int)
    ensures Total(HourStage(db, cutoff)) == Total(db) <==>
            forall a :: a in db.audits && OldAudit(cutoff)(a) ==> HourKey(a) !in KeySet(db.summaries)
  {
    var p := BlockedAudit(KeySet(db.summaries), cutoff);
    HourStageDeficit(db, cutoff);
    AuditSums(Filter(p, db.audits));
    NothingLostIff(Total(HourStage(db, cutoff)), Sum(AuditTotals, Filter(p, db.audits)), Total(db));
    BlockedNoneIff(p, db.audits);
  }

  lemma DayStageLosslessIff(db: Db, cutoff: int)
    requires Valid(db)
    ensures Total(DayStage(db, cutoff)) == Total(db) <==>
            forall r :: r in db.summaries && OldHour(cutoff)(r) ==> DayKey(r) !in KeySet(db.summaries)
  {
    var p := BlockedHour(KeySet(db.summaries), cutoff);
    DayStageDeficit(db, cutoff);
    FilterMembers(p, db.summaries);
    SummarySums(Filter(p, db.summaries));
    NothingLostIff(Total(DayStage(db, cutoff)), Sum(SummaryTotals, Filter(p, db.summaries)), Total(db));
    BlockedNoneIff(p, db.summaries);
  }

  lemma BlockedNoneIff<T(!new)>(p: T -> bool, s: seq<T>)
    ensures Filter(p, s) == [] <==> forall x :: x in s ==> !p(x)
  {
    FilterMembers(p, s);
    if Filter(p, s) != [] { assert Filter(p, s)[0] in Filter(p, s); }
  }

  lemma {:induction false} FilterCounts<T(!new)>(p: T -> bool, q: T -> bool, s: seq<T>)
    requires forall x :: x in s ==> p(x) == !q(x)
    ensures |Filter(p, s)| + |Filter(q, s)| == |s|
  {
    if |s| > 0 { FilterCounts(p, q, s[..|s| - 1]); }
  }

  /** RowsAffected of the DELETE is the number of old rows. */
  lemma DeletedCounts(db: Db, cutoff: int)
    ensures |db.audits| - |HourStage(db, cutoff).audits| == |Filter(OldAudit(cutoff), db.audits)|
    ensures |db.summaries| - |DeleteHours(db, cutoff).summaries| == |Filter(OldHour(cutoff), db.summaries)|
  {
    FilterCounts(KeptAudit(cutoff), OldAudit(cutoff), db.audits);
    FilterCounts(KeptSummary(cutoff), OldHour(cutoff), db.summaries);
  }

  lemma StoreNothing(db: Db, rows: seq<Summary>)
    requires forall r :: r in rows ==> r.key in KeySet(db.summaries)
    ensures Store(db, rows) == db
  {
    FilterNone(Missing(KeySet(db.summaries)), rows);
  }

  lemma StoredKeys(db: Db, rows: seq<Summary>)
    ensures forall r :: r in rows ==> r.key in KeySet(Store(db, rows).summaries)
  {
    FilterMembers(Missing(KeySet(db.summaries)), rows);
    forall r | r in rows ensures r.key in KeySet(Store(db, rows).summaries) {
      if r.key !in KeySet(db.summaries) {
        assert r in Store(db, rows).summaries;
      } else {
        var o :| o in db.summaries && o.key == r.key;
        assert o in Store(db, rows).summaries;
      }
    }
  }

  /** Every old raw row has its hour among the rows the INSERT computes. */
  lemma OldAuditHasRow(db: Db, cutoff: int, a: Audit)
    requires a in db.audits && OldAudit(cutoff)(a)
    ensures exists r :: r in HourRows(db, cutoff) && r.key == HourKey(a)
  {
    var s := Filter(OldAudit(cutoff), db.audits);
    FilterMembers(OldAudit(cutoff), db.audits);
    KeysProperty(HourKey, s);
    RowPerKeyLength(HourKey, HourRow, Keys(HourKey, s), s);
    var i :| 0 <= i < |Keys(HourKey, s)| && Keys(HourKey, s)[i] == HourKey(a);
    assert HourRows(db, cutoff)[i] in HourRows(db, cutoff);
  }

  lemma StoreKeepsKeys(db: Db, rows: seq<Summary>)
    ensures KeySet(db.summaries) <= KeySet(Store(db, rows).summaries)
    ensures forall r :: r in Store(db, rows).summaries ==>
              r in db.summaries || (r in rows && r.key !in KeySet(db.summaries))
    ensures forall r :: r in rows ==> r.key in KeySet(Store(db, rows).summaries)
  {
    FilterMembers(Missing(KeySet(db.summaries)), rows);
    StoredKeys(db, rows);
    forall key | key in KeySet(db.summaries) ensures key in KeySet(Store(db, rows).summaries) {
      var r :| r in db.summaries && r.key == key;
      assert r in Store(db, rows).summaries;
    }
  }

  lemma OldHourHasRow(db: Db, cutoff: int, h: Summary)
    requires h in db.summaries && OldHour(cutoff)(h)
    ensures exists r :: r in DayRows(db, cutoff) && r.key == DayKey(h)
  {
    var s := Filter(OldHour(cutoff), db.summaries);
    FilterMembers(OldHour(cutoff), db.summaries);
    KeysProperty(DayKey, s);
    RowPerKeyLength(DayKey, DayRow, Keys(DayKey, s), s);
    var i :| 0 <= i < |Keys(DayKey, s)| && Keys(DayKey, s)[i] == DayKey(h);
    assert DayRows(db, cutoff)[i] in DayRows(db, cutoff);
  }

  /** Repeating a stage with the same cutoff changes nothing. */
  lemma HourStageIdempotent(db: Db, cutoff: int)
    ensures HourStage(HourStage(db, cutoff), cutoff) == HourStage(db, cutoff)
    ensures Filter(OldAudit(cutoff), HourStage(db, cutoff).audits) == []
  {
    var after := HourStage(db, cutoff);
    FilterMembers(KeptAudit(cutoff), db.audits);
    FilterNone(OldAudit(cutoff), after.audits);
    FilterAll(KeptAudit(cutoff), after.audits);
    StoreNothing(after, HourRows(after, cutoff));
  }

  lemma DayStageIdempotent(db: Db, cutoff: int)
    ensures DayStage(DayStage(db, cutoff), cutoff) == DayStage(db, cutoff)
    ensures Filter(OldHour(cutoff), DayStage(db, cutoff).summaries) == []
  {
    var after := DayStage(db, cutoff);
    FilterMembers(KeptSummary(cutoff), InsertDays(db, cutoff).summaries);
    FilterNone(OldHour(cutoff), after.summaries);
    FilterAll(KeptSummary(cutoff), after.summaries);
    StoreNothing(after, DayRows(after, cutoff));
  }

  /** A stage whose DELETE failed after its INSERT is healed by the next
      attempt: the result is that of one clean run. */
  lemma HourStageRetryHeals(db: Db, cutoff: int)
    ensures HourStage(InsertHours(db, cutoff), cutoff) == HourStage(db, cutoff)
  {
    var half := InsertHours(db, cutoff);
    StoredKeys(db, HourRows(db, cutoff));
    StoreNothing(half, HourRows(half, cutoff));
  }

  lemma DayStageRetryHeals(db: Db, cutoff: int)
    ensures DayStage(InsertDays(db, cutoff), cutoff) == DayStage(db, cutoff)
  {
    var half := InsertDays(db, cutoff);
    OldHoursUntouched(db, cutoff);
    assert DayRows(half, cutoff) == DayRows(db, cutoff);
    StoredKeys(db, DayRows(db, cutoff));
    StoreNothing(half, DayRows(half, cutoff));
  }

  lemma OldHoursUntouched(db: Db, cutoff: int)
    ensures Filter(OldHour(cutoff), InsertDays(db, cutoff).summaries) == Filter(OldHour(cutoff), db.summaries)
  {
    var added := Filter(Missing(KeySet(db.summaries)), DayRows(db, cutoff));
    DayRowsAreDays(db, cutoff);
    FilterMembers(Missing(KeySet(db.summaries)), DayRows(db, cutoff));
    FilterAppend(OldHour(cutoff), db.summaries, added);
    FilterNone(OldHour(cutoff), added);
  }
}
