/** The tiering job with the cutoffs it is really given: any instants, not period
    boundaries.  Where every request then is, told from the cutoffs alone. */
module TieringClock {
  import opened Rows
  import opened Tiers
  import opened TieringLaws
  import opened TieringRun

  /** The largest cutoff each statement has used: hours inserted, raw rows
      deleted, days inserted, hours deleted. */
  datatype Marks = Marks(hoursIn: int, rawOut: int, daysIn: int, hoursOut: int)

  /** What has happened: the requests that arrived, and the cutoffs at which hours
      and days were inserted. */
  datatype Past = Past(arrived: seq<Audit>, raw: set<int>, hourly: set<int>)

  datatype Timed = Timed(db: Db, marks: Marks, past: Past)

  function Max(a: int, b: int): int { if a < b then b else a }

  function Note(m: Marks, past: Past, step: Step): (Marks, Past) {
    match step
    case Arrive(a) => (m, past.(arrived := past.arrived + [a]))
    case DoInsertHours(c) => (m.(hoursIn := Max(m.hoursIn, c)), if m.hoursIn <= c then past.(raw := past.raw + {c}) else past)
    case DoDeleteAudits(c) => (m.(rawOut := Max(m.rawOut, c)), past)
    case DoInsertDays(d) => (m.(daysIn := Max(m.daysIn, d)), if m.daysIn <= d then past.(hourly := past.hourly + {d}) else past)
    case DoDeleteHours(d) => (m.(hoursOut := Max(m.hoursOut, d)), past)
  }

  function Tick(st: Timed, step: Step): Timed {
    var (m, past) := Note(st.marks, st.past, step);
    Timed(Execute(st.db, step), m, past)
  }

  /** The end of the last hour that starts before `d`. */
  function HourEnd(d: int): int { TruncHour(d + HOUR - 1) }

  /** What a run may do next: nothing arrives older than a used raw cutoff, rows
      are deleted only below a cutoff that was inserted, and hours are rolled up
      only once all their requests are hour rows, and deleted only once those
      requests are gone from the raw table. */
  predicate Timely(m: Marks, step: Step) {
    match step
    case Arrive(a) => Tierable(a) ==> m.hoursIn <= a.timestamp
    case DoInsertHours(_) => true
    case DoDeleteAudits(c) => c <= m.hoursIn
    case DoInsertDays(d) => HourEnd(d) <= m.hoursIn
    case DoDeleteHours(d) => d <= m.daysIn && HourEnd(d) <= m.rawOut
  }

  /** Empty tables; no request is older than `epoch`. */
  function Initial(epoch: int): Timed {
    Timed(Db([], []), Marks(epoch, epoch, TruncHour(epoch), TruncHour(epoch)), Past([], {}, {}))
  }

  function Timeline(epoch: int, steps: seq<Step>): Timed {
    if |steps| == 0 then Initial(epoch) else Tick(Timeline(epoch, steps[..|steps| - 1]), steps[|steps| - 1])
  }

  predicate OnTime(epoch: int, steps: seq<Step>) {
    |steps| == 0 ||
    (OnTime(epoch, steps[..|steps| - 1]) && Timely(Timeline(epoch, steps[..|steps| - 1]).marks, steps[|steps| - 1]))
  }

  // ----- requests cut off from their bucket

  /** A raw cutoff fell into the request's hour: an earlier request of the same
      bucket lies before it, this one not. */
  predicate HourCut(arrived: seq<Audit>, raw: set<int>, a: Audit) {
    exists b, c :: b in arrived && c in raw && Tierable(b) && HourKey(b) == HourKey(a) && b.timestamp < c <= a.timestamp
  }

  /** An hourly cutoff fell into the request's day: the hour of an earlier
      request of the same service and day lies before it, this one's not. */
  predicate DayCut(arrived: seq<Audit>, hourly: set<int>, a: Audit) {
    exists b, d :: b in arrived && d in hourly && Tierable(b) && AuditDay(b) == AuditDay(a) &&
                   TruncHour(b.timestamp) < d <= TruncHour(a.timestamp)
  }

  // ----- what the tables hold

  /** Some request of the hour is older than the raw cutoff. */
  ghost predicate HourReached(arrived: seq<Audit>, hoursIn: int, key: Key) {
    exists b :: b in arrived && Tierable(b) && b.timestamp < hoursIn && HourKey(b) == key
  }

  /** Some request of the day lies in an hour older than the hourly cutoff. */
  ghost predicate DayReached(arrived: seq<Audit>, daysIn: int, key: Key) {
    exists b :: b in arrived && Tierable(b) && TruncHour(b.timestamp) < daysIn && AuditDay(b) == key
  }

  ghost predicate HourKeysMatch(st: Timed) {
    forall key: Key :: key.period == Hour ==>
      (key in KeySet(st.db.summaries) <==>
       st.marks.hoursOut <= key.start && HourReached(st.past.arrived, st.marks.hoursIn, key))
  }

  ghost predicate DayKeysMatch(st: Timed) {
    forall key: Key :: key.period == Day ==>
      (key in KeySet(st.db.summaries) <==> DayReached(st.past.arrived, st.marks.daysIn, key))
  }

  ghost predicate MarksMatch(epoch: int, m: Marks, past: Past) {
    && epoch <= m.rawOut <= m.hoursIn && TruncHour(epoch) <= m.hoursOut <= m.daysIn
    && HourEnd(m.daysIn) <= m.hoursIn && HourEnd(m.hoursOut) <= m.rawOut
    && (forall c :: c in past.raw ==> c <= m.hoursIn)
    && (forall d :: d in past.hourly ==> d <= m.daysIn)
    && (m.hoursIn == epoch || m.hoursIn in past.raw)
    && (m.daysIn == TruncHour(epoch) || m.daysIn in past.hourly)
    && (forall b :: b in past.arrived && Tierable(b) ==> epoch <= b.timestamp)
  }

  ghost predicate Inv(epoch: int, st: Timed) {
    && Valid(st.db)
    && st.db.audits == Filter(KeptAudit(st.marks.rawOut), st.past.arrived)
    && HourKeysMatch(st) && DayKeysMatch(st)
    && MarksMatch(epoch, st.marks, st.past)
  }

  lemma HourSpan(t: int)
    ensures TruncHour(t) <= t < TruncHour(t) + HOUR
  {
  }

  lemma TruncMonotone(s: int, t: int)
    requires s <= t
    ensures TruncHour(s) <= TruncHour(t)
  {
  }

  lemma HourEndMeans(t: int, d: int)
    ensures TruncHour(t) < d <==> t < HourEnd(d)
  {
    var (q, p) := (t / HOUR, (d + HOUR - 1) / HOUR);
    assert TruncHour(t) == q * HOUR && HourEnd(d) == p * HOUR;
    assert q * HOUR < d <==> q < p;
  }

  lemma HourEndOfStart(t: int)
    ensures HourEnd(TruncHour(t)) == TruncHour(t) <= t
  {
  }

  lemma {:induction false} KeepLater(c: int, d: int, s: seq<Audit>)
    ensures Filter(KeptAudit(d), Filter(KeptAudit(c), s)) == Filter(KeptAudit(Max(c, d)), s)
  {
    if |s| > 0 {
      var t, e := s[..|s| - 1], s[|s| - 1];
      assert s == t + [e];
      hide *;
      KeepLater(c, d, t);
      FilterLast(KeptAudit(c), t, e);
      FilterLast(KeptAudit(Max(c, d)), t, e);
      FilterLast(KeptAudit(d), Filter(KeptAudit(c), t), e);
      KeptByBoth(c, d, e);
    }
  }

  lemma KeptByBoth(c: int, d: int, e: Audit)
    ensures KeptAudit(Max(c, d))(e) == (KeptAudit(c)(e) && KeptAudit(d)(e))
  {
    hide Tierable;
  }

  // ----- the keys each statement stores

  lemma KeysAfterInsertHours(db: Db, c: int, key: Key)
    ensures key in KeySet(InsertHours(db, c).summaries) <==>
            key in KeySet(db.summaries) || exists a :: a in db.audits && OldAudit(c)(a) && HourKey(a) == key
  {
    var after := InsertHours(db, c).summaries;
    StoreKeepsKeys(db, HourRows(db, c));
    if key in KeySet(after) {
      var r :| r in after && r.key == key;
      if r !in db.summaries {
        var g := HourRowSource(db, c, r);
        assert g[0] in g;
      }
    }
    if a :| a in db.audits && OldAudit(c)(a) && HourKey(a) == key {
      OldAuditHasRow(db, c, a);
    }
  }

  lemma KeysAfterInsertDays(db: Db, d: int, key: Key)
    requires Valid(db)
    ensures key in KeySet(InsertDays(db, d).summaries) <==>
            key in KeySet(db.summaries) || exists h :: h in db.summaries && OldHour(d)(h) && DayKey(h) == key
  {
    var after := InsertDays(db, d).summaries;
    StoreKeepsKeys(db, DayRows(db, d));
    if key in KeySet(after) {
      var r :| r in after && r.key == key;
      if r !in db.summaries {
        var g := DayRowSource(db, d, r);
        assert g[0] in g;
      }
    }
    if h :| h in db.summaries && OldHour(d)(h) && DayKey(h) == key {
      OldHourHasRow(db, d, h);
    }
  }

  lemma KeysAfterDeleteHours(db: Db, d: int, key: Key)
    ensures key in KeySet(DeleteHours(db, d).summaries) <==>
            key in KeySet(db.summaries) && (key.period == Day || d <= key.start)
  {
    FilterMembers(KeptSummary(d), db.summaries);
    var after := DeleteHours(db, d).summaries;
    if key in KeySet(db.summaries) && (key.period == Day || d <= key.start) {
      var r :| r in db.summaries && r.key == key;
      assert r in after;
    }
  }

  // ----- INSERT of hours

  /** A raw row lies in an hour that has not been deleted. */
  lemma RawHourKept(epoch: int, st: Timed, t: int)
    requires MarksMatch(epoch, st.marks, st.past) && st.marks.rawOut <= t
    ensures st.marks.hoursOut <= TruncHour(t)
  {
    HourEndMeans(t, st.marks.hoursOut);
  }

  lemma InsertedHourKey(epoch: int, st: Timed, c: int, key: Key)
    requires Inv(epoch, st) && key.period == Hour
    ensures key in KeySet(InsertHours(st.db, c).summaries) <==>
            st.marks.hoursOut <= key.start && HourReached(st.past.arrived, Max(st.marks.hoursIn, c), key)
  {
    var (m, arrived) := (st.marks, st.past.arrived);
    KeysAfterInsertHours(st.db, c, key);
    FilterMembers(KeptAudit(m.rawOut), arrived);
    hide InsertHours, KeySet, Valid, DayKeysMatch, HourEnd;
    if a :| a in st.db.audits && OldAudit(c)(a) && HourKey(a) == key { RawHourKept(epoch, st, a.timestamp); }
    if m.hoursOut <= key.start && HourReached(arrived, Max(m.hoursIn, c), key) {
      var b :| b in arrived && Tierable(b) && b.timestamp < Max(m.hoursIn, c) && HourKey(b) == key;
      if b.timestamp >= m.hoursIn { assert b in st.db.audits; } else { assert HourReached(arrived, m.hoursIn, key); }
    }
  }

  lemma InsertHoursKeepsKeys(epoch: int, st: Timed, c: int)
    requires Inv(epoch, st)
    ensures HourKeysMatch(Tick(st, DoInsertHours(c))) && DayKeysMatch(Tick(st, DoInsertHours(c)))
  {
    hide InsertHours, KeySet, Valid, HourReached, DayReached;
    forall key: Key | key.period == Hour
      ensures key in KeySet(InsertHours(st.db, c).summaries) <==>
              st.marks.hoursOut <= key.start && HourReached(st.past.arrived, Max(st.marks.hoursIn, c), key)
    {
      InsertedHourKey(epoch, st, c, key);
    }
    forall key: Key | key.period == Day
      ensures key in KeySet(InsertHours(st.db, c).summaries) <==> key in KeySet(st.db.summaries)
    {
      KeysAfterInsertHours(st.db, c, key);
    }
  }

  // ----- INSERT of days

  lemma OldHourReaches(st: Timed, d: int, h: Summary)
    requires HourKeysMatch(st) && h in st.db.summaries && OldHour(d)(h)
    ensures DayReached(st.past.arrived, d, DayKey(h))
  {
    assert h.key in KeySet(st.db.summaries);
    var b :| b in st.past.arrived && Tierable(b) && b.timestamp < st.marks.hoursIn && HourKey(b) == h.key;
    assert AuditDay(b) == DayKey(h);
  }

  lemma HourRowFor(st: Timed, b: Audit, d: int) returns (h: Summary)
    requires HourKeysMatch(st) && b in st.past.arrived && Tierable(b)
    requires st.marks.hoursOut <= TruncHour(b.timestamp) < d && HourEnd(d) <= st.marks.hoursIn
    ensures h in st.db.summaries && OldHour(d)(h) && DayKey(h) == AuditDay(b)
  {
    HourEndMeans(b.timestamp, d);
    assert HourReached(st.past.arrived, st.marks.hoursIn, HourKey(b));
    h :| h in st.db.summaries && h.key == HourKey(b);
  }

  lemma DayReachedLater(arrived: seq<Audit>, c: int, d: int, key: Key)
    requires DayReached(arrived, c, key) && c <= d
    ensures DayReached(arrived, d, key)
  {
    hide Tierable, AuditDay, TruncHour;
  }

  lemma InsertedDayKey(epoch: int, st: Timed, d: int, key: Key)
    requires Inv(epoch, st) && HourEnd(d) <= st.marks.hoursIn && key.period == Day
    ensures key in KeySet(InsertDays(st.db, d).summaries) <==> DayReached(st.past.arrived, Max(st.marks.daysIn, d), key)
  {
    var (m, arrived) := (st.marks, st.past.arrived);
    KeysAfterInsertDays(st.db, d, key);
    hide InsertDays, Valid, HourEnd;
    if h :| h in st.db.summaries && OldHour(d)(h) && DayKey(h) == key {
      OldHourReaches(st, d, h);
      DayReachedLater(arrived, d, Max(m.daysIn, d), key);
    }
    if DayReached(arrived, m.daysIn, key) { DayReachedLater(arrived, m.daysIn, Max(m.daysIn, d), key); }
    if DayReached(arrived, Max(m.daysIn, d), key) {
      var b :| b in arrived && Tierable(b) && TruncHour(b.timestamp) < Max(m.daysIn, d) && AuditDay(b) == key;
      if m.daysIn <= TruncHour(b.timestamp) {
        var h := HourRowFor(st, b, d);
      } else {
        assert DayReached(arrived, m.daysIn, key);
      }
    }
  }

  lemma InsertDaysKeepsKeys(epoch: int, st: Timed, d: int)
    requires Inv(epoch, st) && HourEnd(d) <= st.marks.hoursIn
    ensures HourKeysMatch(Tick(st, DoInsertDays(d))) && DayKeysMatch(Tick(st, DoInsertDays(d)))
  {
    hide InsertDays, KeySet, HourReached, DayReached, Valid, HourEnd;
    forall key: Key | key.period == Hour
      ensures key in KeySet(InsertDays(st.db, d).summaries) <==> key in KeySet(st.db.summaries)
    {
      assert Valid(st.db);
      KeysAfterInsertDays(st.db, d, key);
    }
    forall key: Key | key.period == Day
      ensures key in KeySet(InsertDays(st.db, d).summaries) <==> DayReached(st.past.arrived, Max(st.marks.daysIn, d), key)
    {
      InsertedDayKey(epoch, st, d, key);
    }
  }

  // ----- DELETE of hours, and arrivals

  lemma DeleteHoursKeepsKeys(st: Timed, d: int)
    requires HourKeysMatch(st) && DayKeysMatch(st)
    ensures HourKeysMatch(Tick(st, DoDeleteHours(d))) && DayKeysMatch(Tick(st, DoDeleteHours(d)))
  {
    hide DeleteHours, KeySet, HourReached, DayReached;
    forall key: Key
      ensures key in KeySet(DeleteHours(st.db, d).summaries) <==>
              key in KeySet(st.db.summaries) && (key.period == Day || d <= key.start)
    {
      KeysAfterDeleteHours(st.db, d, key);
    }
  }

  lemma HourReachedSame(arrived: seq<Audit>, hoursIn: int, a: Audit, key: Key)
    requires Tierable(a) ==> hoursIn <= a.timestamp
    ensures HourReached(arrived + [a], hoursIn, key) <==> HourReached(arrived, hoursIn, key)
  {
    hide Tierable, HourKey;
    if HourReached(arrived, hoursIn, key) {
      var b :| b in arrived && Tierable(b) && b.timestamp < hoursIn && HourKey(b) == key;
      assert b in arrived + [a];
    }
  }

  lemma DayReachedSame(arrived: seq<Audit>, daysIn: int, a: Audit, key: Key)
    requires Tierable(a) ==> daysIn <= TruncHour(a.timestamp)
    ensures DayReached(arrived + [a], daysIn, key) <==> DayReached(arrived, daysIn, key)
  {
    hide Tierable, AuditDay, TruncHour;
    if DayReached(arrived, daysIn, key) {
      var b :| b in arrived && Tierable(b) && TruncHour(b.timestamp) < daysIn && AuditDay(b) == key;
      assert b in arrived + [a];
    }
  }

  /** A new arrival lies beyond both insertion marks. */
  lemma ArrivalBeyond(epoch: int, st: Timed, a: Audit)
    requires MarksMatch(epoch, st.marks, st.past) && Timely(st.marks, Arrive(a)) && Tierable(a)
    ensures st.marks.hoursIn <= a.timestamp && st.marks.daysIn <= TruncHour(a.timestamp)
  {
    HourEndMeans(a.timestamp, st.marks.daysIn);
  }

  lemma ArriveKeepsKeys(epoch: int, st: Timed, a: Audit)
    requires Inv(epoch, st) && Timely(st.marks, Arrive(a))
    ensures HourKeysMatch(Tick(st, Arrive(a))) && DayKeysMatch(Tick(st, Arrive(a)))
  {
    if Tierable(a) { ArrivalBeyond(epoch, st, a); }
    var (arrived, m) := (st.past.arrived, st.marks);
    hide HourReached, DayReached, Tierable, KeySet, Valid, TruncHour, HourEnd;
    forall key: Key ensures HourReached(arrived + [a], m.hoursIn, key) <==> HourReached(arrived, m.hoursIn, key) {
      HourReachedSame(arrived, m.hoursIn, a, key);
    }
    forall key: Key ensures DayReached(arrived + [a], m.daysIn, key) <==> DayReached(arrived, m.daysIn, key) {
      DayReachedSame(arrived, m.daysIn, a, key);
    }
  }

  // ----- the invariant

  lemma RawRowsKept(st: Timed, step: Step)
    requires st.db.audits == Filter(KeptAudit(st.marks.rawOut), st.past.arrived) && Timely(st.marks, step)
    requires st.marks.rawOut <= st.marks.hoursIn
    ensures Tick(st, step).db.audits == Filter(KeptAudit(Tick(st, step).marks.rawOut), Tick(st, step).past.arrived)
  {
    match step
    case Arrive(a) => FilterLast(KeptAudit(st.marks.rawOut), st.past.arrived, a);
    case DoDeleteAudits(c) => KeepLater(st.marks.rawOut, c, st.past.arrived);
    case _ =>
  }

  lemma TickValid(st: Timed, step: Step)
    requires Valid(st.db)
    ensures Valid(Tick(st, step).db)
  {
    if !step.Arrive? { StatementsKeepTablesValid(st.db, step.cutoff); }
  }

  lemma TickKeepsMarks(epoch: int, st: Timed, step: Step)
    requires MarksMatch(epoch, st.marks, st.past) && Timely(st.marks, step)
    ensures MarksMatch(epoch, Tick(st, step).marks, Tick(st, step).past)
  {
    hide Tierable, InsertHours, DeleteAudits, InsertDays, DeleteHours, HourEnd;
  }

  lemma TickKeepsInv(epoch: int, st: Timed, step: Step)
    requires Inv(epoch, st) && Timely(st.marks, step)
    ensures Inv(epoch, Tick(st, step))
  {
    TickValid(st, step);
    RawRowsKept(st, step);
    TickKeepsMarks(epoch, st, step);
    hide HourKeysMatch, DayKeysMatch, MarksMatch, Valid, Filter;
    match step
    case Arrive(a) => ArriveKeepsKeys(epoch, st, a);
    case DoInsertHours(c) => InsertHoursKeepsKeys(epoch, st, c);
    case DoDeleteAudits(c) => SameKeys(st, Tick(st, step));
    case DoInsertDays(d) => InsertDaysKeepsKeys(epoch, st, d);
    case DoDeleteHours(d) => DeleteHoursKeepsKeys(st, d);
  }

  lemma SameKeys(st: Timed, st': Timed)
    requires HourKeysMatch(st) && DayKeysMatch(st)
    requires st'.db.summaries == st.db.summaries && st'.past == st.past && st'.marks == st.marks.(rawOut := st'.marks.rawOut)
    ensures HourKeysMatch(st') && DayKeysMatch(st')
  {
    hide KeySet, HourReached, DayReached;
  }

  lemma InitialInv(epoch: int)
    ensures Inv(epoch, Initial(epoch))
  {
    HourEndOfStart(epoch);
  }

  /** At every moment: raw rows are the arrivals since the raw DELETE, hour rows
      those of the hours reached since the hourly DELETE, day rows those of the
      days reached. */
  lemma {:induction false} RunKeepsInv(epoch: int, steps: seq<Step>)
    requires OnTime(epoch, steps)
    ensures Inv(epoch, Timeline(epoch, steps))
  {
    if |steps| == 0 {
      InitialInv(epoch);
    } else {
      var front := steps[..|steps| - 1];
      RunKeepsInv(epoch, front);
      hide Inv, Tick, Timely;
      TickKeepsInv(epoch, Timeline(epoch, front), steps[|steps| - 1]);
    }
  }

  // ----- cut off means stored

  /** The hour of a request not yet inserted is stored exactly when it is cut off. */
  lemma HourStoredIffCut(epoch: int, st: Timed, a: Audit)
    requires Inv(epoch, st) && st.marks.hoursIn <= a.timestamp
    ensures HourKey(a) in KeySet(st.db.summaries) <==> HourCut(st.past.arrived, st.past.raw, a)
  {
    var (m, past) := (st.marks, st.past);
    RawHourKept(epoch, st, a.timestamp);
    assert HourKey(a).period == Hour && m.hoursOut <= HourKey(a).start;
    hide Tierable, HourKey, KeySet, Valid, DayKeysMatch, HourEnd;
    if HourCut(past.arrived, past.raw, a) {
      var b, c :| b in past.arrived && c in past.raw && Tierable(b) && HourKey(b) == HourKey(a) && b.timestamp < c <= a.timestamp;
      assert b.timestamp < m.hoursIn;
    }
    if HourReached(past.arrived, m.hoursIn, HourKey(a)) {
      var b :| b in past.arrived && Tierable(b) && b.timestamp < m.hoursIn && HourKey(b) == HourKey(a);
      assert m.hoursIn in past.raw;
    }
  }

  /** The day of a request whose hour is not yet rolled up is stored exactly when
      it is cut off. */
  lemma DayStoredIffCut(epoch: int, st: Timed, a: Audit)
    requires Inv(epoch, st) && st.marks.daysIn <= TruncHour(a.timestamp)
    ensures AuditDay(a) in KeySet(st.db.summaries) <==> DayCut(st.past.arrived, st.past.hourly, a)
  {
    var (m, past) := (st.marks, st.past);
    assert AuditDay(a).period == Day;
    hide Tierable, AuditDay, TruncHour, KeySet, Valid, HourKeysMatch, HourEnd;
    if DayCut(past.arrived, past.hourly, a) {
      var b, d :| b in past.arrived && d in past.hourly && Tierable(b) && AuditDay(b) == AuditDay(a) &&
                  TruncHour(b.timestamp) < d <= TruncHour(a.timestamp);
      assert TruncHour(b.timestamp) < m.daysIn;
    }
    if DayReached(past.arrived, m.daysIn, AuditDay(a)) {
      var b :| b in past.arrived && Tierable(b) && TruncHour(b.timestamp) < m.daysIn && AuditDay(b) == AuditDay(a);
      TruncMonotone(epoch, b.timestamp);
      assert m.daysIn in past.hourly;
    }
  }

  // ----- what cannot cut a request off

  lemma HourCutArrival(arrived: seq<Audit>, raw: set<int>, used: int, a: Audit, x: Audit)
    requires (forall c :: c in raw ==> c <= used) && (Tierable(a) ==> used <= a.timestamp)
    ensures HourCut(arrived + [a], raw, x) <==> HourCut(arrived, raw, x)
  {
    hide Tierable, HourKey;
    if HourCut(arrived + [a], raw, x) {
      var b, c :| b in arrived + [a] && c in raw && Tierable(b) && HourKey(b) == HourKey(x) && b.timestamp < c <= x.timestamp;
      assert b in arrived;
    }
    if HourCut(arrived, raw, x) {
      var b, c :| b in arrived && c in raw && Tierable(b) && HourKey(b) == HourKey(x) && b.timestamp < c <= x.timestamp;
      assert b in arrived + [a];
    }
  }

  lemma HourCutLater(arrived: seq<Audit>, raw: set<int>, c: int, x: Audit)
    requires x.timestamp < c
    ensures HourCut(arrived, raw + {c}, x) <==> HourCut(arrived, raw, x)
  {
    hide Tierable, HourKey;
    if HourCut(arrived, raw + {c}, x) {
      var b, d :| b in arrived && d in raw + {c} && Tierable(b) && HourKey(b) == HourKey(x) && b.timestamp < d <= x.timestamp;
      assert d in raw;
    }
    if HourCut(arrived, raw, x) {
      var b, d :| b in arrived && d in raw && Tierable(b) && HourKey(b) == HourKey(x) && b.timestamp < d <= x.timestamp;
      assert d in raw + {c};
    }
  }

  lemma DayCutArrival(arrived: seq<Audit>, hourly: set<int>, rolled: int, a: Audit, x: Audit)
    requires (forall d :: d in hourly ==> d <= rolled) && (Tierable(a) ==> rolled <= TruncHour(a.timestamp))
    ensures DayCut(arrived + [a], hourly, x) <==> DayCut(arrived, hourly, x)
  {
    hide Tierable, AuditDay, TruncHour;
    if DayCut(arrived + [a], hourly, x) {
      var b, d :| b in arrived + [a] && d in hourly && Tierable(b) && AuditDay(b) == AuditDay(x) &&
                  TruncHour(b.timestamp) < d <= TruncHour(x.timestamp);
      assert b in arrived;
    }
    if DayCut(arrived, hourly, x) {
      var b, d :| b in arrived && d in hourly && Tierable(b) && AuditDay(b) == AuditDay(x) &&
                  TruncHour(b.timestamp) < d <= TruncHour(x.timestamp);
      assert b in arrived + [a];
    }
  }

  lemma DayCutLater(arrived: seq<Audit>, hourly: set<int>, d: int, x: Audit)
    requires TruncHour(x.timestamp) < d
    ensures DayCut(arrived, hourly + {d}, x) <==> DayCut(arrived, hourly, x)
  {
    hide Tierable, AuditDay, TruncHour;
    if DayCut(arrived, hourly + {d}, x) {
      var b, e :| b in arrived && e in hourly + {d} && Tierable(b) && AuditDay(b) == AuditDay(x) &&
                  TruncHour(b.timestamp) < e <= TruncHour(x.timestamp);
      assert e in hourly;
    }
    if DayCut(arrived, hourly, x) {
      var b, e :| b in arrived && e in hourly && Tierable(b) && AuditDay(b) == AuditDay(x) &&
                  TruncHour(b.timestamp) < e <= TruncHour(x.timestamp);
      assert e in hourly + {d};
    }
  }

  // ----- the fate of a request, told from the cutoffs

  predicate HourPlace(k: Timed, a: Audit) {
    Tierable(a) && a.timestamp < k.marks.hoursIn && k.marks.hoursOut <= TruncHour(a.timestamp) &&
    !HourCut(k.past.arrived, k.past.raw, a)
  }

  predicate DayPlace(k: Timed, a: Audit) {
    Tierable(a) && TruncHour(a.timestamp) < k.marks.daysIn &&
    !HourCut(k.past.arrived, k.past.raw, a) && !DayCut(k.past.arrived, k.past.hourly, a)
  }

  ghost predicate Placed(k: Timed, f: Fate) {
    && f.audit in k.past.arrived
    && f.raw == KeptAudit(k.marks.rawOut)(f.audit)
    && f.hour == HourPlace(k, f.audit)
    && f.day == DayPlace(k, f.audit)
  }

  lemma CutsUnchanged(epoch: int, k: Timed, step: Step, x: Audit)
    requires MarksMatch(epoch, k.marks, k.past) && Timely(k.marks, step)
    ensures var past' := Tick(k, step).past;
            && (!(step.DoInsertHours? && step.cutoff <= x.timestamp) ==>
                  (HourCut(past'.arrived, past'.raw, x) <==> HourCut(k.past.arrived, k.past.raw, x)))
            && (!(step.DoInsertDays? && step.cutoff <= TruncHour(x.timestamp)) ==>
                  (DayCut(past'.arrived, past'.hourly, x) <==> DayCut(k.past.arrived, k.past.hourly, x)))
  {
    if step.Arrive? && Tierable(step.audit) { ArrivalBeyond(epoch, k, step.audit); }
    hide HourCut, DayCut, Tierable, TruncHour, HourEnd, Execute;
    match step
    case Arrive(a) =>
      HourCutArrival(k.past.arrived, k.past.raw, k.marks.hoursIn, a, x);
      DayCutArrival(k.past.arrived, k.past.hourly, k.marks.daysIn, a, x);
    case DoInsertHours(c) => if x.timestamp < c { HourCutLater(k.past.arrived, k.past.raw, c, x); }
    case DoInsertDays(d) => if TruncHour(x.timestamp) < d { DayCutLater(k.past.arrived, k.past.hourly, d, x); }
    case _ =>
  }

  /** An INSERT of hours takes along the requests the raw cutoff newly passed, but
      for those cut off from their hour. */
  lemma TakenIff(epoch: int, k: Timed, c: int, f: Fate)
    requires Inv(epoch, k) && Placed(k, f)
    ensures f.raw && OldAudit(c)(f.audit) && HourKey(f.audit) !in KeySet(k.db.summaries) <==>
            Tierable(f.audit) && k.marks.hoursIn <= f.audit.timestamp < c && !HourCut(k.past.arrived, k.past.raw, f.audit)
  {
    var (a, m) := (f.audit, k.marks);
    assert OldAudit(c)(a) <==> Tierable(a) && a.timestamp < c;
    assert f.raw <==> !(Tierable(a) && a.timestamp < m.rawOut);
    hide Tierable, HourCut, KeySet, Valid, TruncHour, HourEnd, DayKeysMatch, HourPlace, DayPlace;
    if Tierable(a) && m.rawOut <= a.timestamp {
      RawHourKept(epoch, k, a.timestamp);
      if a.timestamp < m.hoursIn {
        assert HourReached(k.past.arrived, m.hoursIn, HourKey(a));
      } else {
        HourStoredIffCut(epoch, k, a);
      }
    }
  }

  lemma InsertHoursPlaces(epoch: int, k: Timed, c: int, f: Fate)
    requires Inv(epoch, k) && Placed(k, f)
    ensures Placed(Tick(k, DoInsertHours(c)), Move(KeySet(k.db.summaries), DoInsertHours(c))(f))
  {
    var a := f.audit;
    TakenIff(epoch, k, c, f);
    CutsUnchanged(epoch, k, DoInsertHours(c), a);
    if k.marks.hoursIn <= a.timestamp { RawHourKept(epoch, k, a.timestamp); }
    HourEndMeans(a.timestamp, k.marks.daysIn);
    hide Inv, HourCut, DayCut, KeySet, HourEnd, TruncHour;
    InsertedPlaces(k, c, f);
  }

  lemma InsertedPlaces(k: Timed, c: int, f: Fate)
    requires Placed(k, f)
    requires var (past', a) := (Tick(k, DoInsertHours(c)).past, f.audit);
             && (a.timestamp < c ==> (HourCut(past'.arrived, past'.raw, a) <==> HourCut(k.past.arrived, k.past.raw, a)))
             && (DayCut(past'.arrived, past'.hourly, a) <==> DayCut(k.past.arrived, k.past.hourly, a))
             && (a.timestamp < k.marks.hoursIn && c <= a.timestamp ==> past' == k.past)
             && (TruncHour(a.timestamp) < k.marks.daysIn ==> a.timestamp < k.marks.hoursIn)
             && (k.marks.hoursIn <= a.timestamp ==> k.marks.hoursOut <= TruncHour(a.timestamp))
    requires f.raw && OldAudit(c)(f.audit) && HourKey(f.audit) !in KeySet(k.db.summaries) <==>
             Tierable(f.audit) && k.marks.hoursIn <= f.audit.timestamp < c && !HourCut(k.past.arrived, k.past.raw, f.audit)
    ensures Placed(Tick(k, DoInsertHours(c)), Move(KeySet(k.db.summaries), DoInsertHours(c))(f))
  {
    hide Tierable, HourCut, DayCut, KeySet, TruncHour, HourKey, Execute, OldAudit, KeptAudit;
  }

  lemma RolledIff(epoch: int, k: Timed, d: int, f: Fate)
    requires Inv(epoch, k) && Placed(k, f) && HourEnd(d) <= k.marks.hoursIn
    ensures f.hour && TruncHour(f.audit.timestamp) < d && AuditDay(f.audit) !in KeySet(k.db.summaries) <==>
            Tierable(f.audit) && k.marks.daysIn <= TruncHour(f.audit.timestamp) < d &&
            !HourCut(k.past.arrived, k.past.raw, f.audit) && !DayCut(k.past.arrived, k.past.hourly, f.audit)
  {
    var (a, m) := (f.audit, k.marks);
    HourEndMeans(a.timestamp, d);
    assert AuditDay(a).period == Day;
    hide Tierable, HourCut, DayCut, KeySet, Valid, TruncHour, HourEnd, HourKeysMatch, AuditDay;
    if Tierable(a) {
      if TruncHour(a.timestamp) < m.daysIn {
        assert DayReached(k.past.arrived, m.daysIn, AuditDay(a));
      } else {
        DayStoredIffCut(epoch, k, a);
      }
    }
  }

  lemma InsertDaysPlaces(epoch: int, k: Timed, d: int, f: Fate)
    requires Inv(epoch, k) && Placed(k, f) && HourEnd(d) <= k.marks.hoursIn
    ensures Placed(Tick(k, DoInsertDays(d)), Move(KeySet(k.db.summaries), DoInsertDays(d))(f))
  {
    RolledIff(epoch, k, d, f);
    CutsUnchanged(epoch, k, DoInsertDays(d), f.audit);
    hide Inv, HourCut, DayCut, KeySet, HourEnd;
    RolledPlaces(k, d, f);
  }

  lemma RolledPlaces(k: Timed, d: int, f: Fate)
    requires Placed(k, f)
    requires var past' := Tick(k, DoInsertDays(d)).past;
             && (HourCut(past'.arrived, past'.raw, f.audit) <==> HourCut(k.past.arrived, k.past.raw, f.audit))
             && (TruncHour(f.audit.timestamp) < d ==>
                   (DayCut(past'.arrived, past'.hourly, f.audit) <==> DayCut(k.past.arrived, k.past.hourly, f.audit)))
             && (TruncHour(f.audit.timestamp) < k.marks.daysIn && d <= TruncHour(f.audit.timestamp) ==>
                   past' == k.past)
    requires f.hour && TruncHour(f.audit.timestamp) < d && AuditDay(f.audit) !in KeySet(k.db.summaries) <==>
             Tierable(f.audit) && k.marks.daysIn <= TruncHour(f.audit.timestamp) < d &&
             !HourCut(k.past.arrived, k.past.raw, f.audit) && !DayCut(k.past.arrived, k.past.hourly, f.audit)
    ensures Placed(Tick(k, DoInsertDays(d)), Move(KeySet(k.db.summaries), DoInsertDays(d))(f))
  {
    hide Tierable, HourCut, DayCut, KeySet, TruncHour, AuditDay, Execute, KeptAudit;
  }

  lemma OtherPlaces(epoch: int, k: Timed, step: Step, f: Fate)
    requires Inv(epoch, k) && Timely(k.marks, step) && Placed(k, f) && !step.DoInsertHours? && !step.DoInsertDays?
    ensures Placed(Tick(k, step), Move(KeySet(k.db.summaries), step)(f))
  {
    CutsUnchanged(epoch, k, step, f.audit);
    assert MarksMatch(epoch, k.marks, k.past);
    hide Inv, HourCut, DayCut;
    match step
    case Arrive(a) => ArrivePlaces(k, a, f);
    case DoDeleteAudits(c) => DeleteAuditsPlaces(k, c, f);
    case DoDeleteHours(d) => DeleteHoursPlaces(k, d, f);
  }

  /** The same cuts, as seen from a step's past. */
  ghost predicate CutsKept(k: Timed, step: Step, x: Audit) {
    var past' := Tick(k, step).past;
    && (HourCut(past'.arrived, past'.raw, x) <==> HourCut(k.past.arrived, k.past.raw, x))
    && (DayCut(past'.arrived, past'.hourly, x) <==> DayCut(k.past.arrived, k.past.hourly, x))
  }

  lemma ArrivePlaces(k: Timed, a: Audit, f: Fate)
    requires Placed(k, f) && CutsKept(k, Arrive(a), f.audit)
    ensures Placed(Tick(k, Arrive(a)), Move(KeySet(k.db.summaries), Arrive(a))(f))
  {
    hide Tierable, HourCut, DayCut, KeySet, TruncHour, Execute, KeptAudit;
  }

  lemma DeleteAuditsPlaces(k: Timed, c: int, f: Fate)
    requires Placed(k, f) && CutsKept(k, DoDeleteAudits(c), f.audit)
    ensures Placed(Tick(k, DoDeleteAudits(c)), Move(KeySet(k.db.summaries), DoDeleteAudits(c))(f))
  {
    assert KeptAudit(Max(k.marks.rawOut, c))(f.audit) == (KeptAudit(k.marks.rawOut)(f.audit) && KeptAudit(c)(f.audit));
    hide Tierable, HourCut, DayCut, KeySet, TruncHour, Execute, KeptAudit;
  }

  lemma DeleteHoursPlaces(k: Timed, d: int, f: Fate)
    requires Placed(k, f) && CutsKept(k, DoDeleteHours(d), f.audit)
    ensures Placed(Tick(k, DoDeleteHours(d)), Move(KeySet(k.db.summaries), DoDeleteHours(d))(f))
  {
    hide Tierable, HourCut, DayCut, KeySet, TruncHour, Execute, KeptAudit;
  }

  lemma ArrivalPlaced(epoch: int, k: Timed, a: Audit)
    requires Inv(epoch, k) && Timely(k.marks, Arrive(a))
    ensures Placed(Tick(k, Arrive(a)), Fate(a, true, false, false))
  {
    if Tierable(a) { ArrivalBeyond(epoch, k, a); }
    hide Tierable, HourCut, DayCut, Valid, TruncHour, HourEnd, DayKeysMatch, HourKeysMatch;
  }

  lemma TickPlaces(epoch: int, k: Timed, step: Step, f: Fate)
    requires Inv(epoch, k) && Timely(k.marks, step) && Placed(k, f)
    ensures Placed(Tick(k, step), Move(KeySet(k.db.summaries), step)(f))
  {
    hide Inv, Placed, Move, Tick, KeySet;
    match step
    case DoInsertHours(c) => InsertHoursPlaces(epoch, k, c, f);
    case DoInsertDays(d) => InsertDaysPlaces(epoch, k, d, f);
    case _ => OtherPlaces(epoch, k, step, f);
  }

  lemma ApplyPlaces(epoch: int, k: Timed, st: State, step: Step)
    requires Inv(epoch, k) && Timely(k.marks, step) && k.db == st.db && k.past.arrived == Arrived(st)
    requires forall f :: f in st.fates ==> Placed(k, f)
    ensures forall f :: f in Apply(st, step).fates ==> Placed(Tick(k, step), f)
  {
    if step.Arrive? { ArrivalPlaced(epoch, k, step.audit); }
    var moved := Mapped(Move(KeySet(st.db.summaries), step), st.fates);
    hide Inv, Placed, Move, Tick, KeySet, Timely, Execute;
    forall g | g in moved ensures Placed(Tick(k, step), g) {
      var i :| 0 <= i < |moved| && moved[i] == g;
      assert st.fates[i] in st.fates;
      TickPlaces(epoch, k, step, st.fates[i]);
    }
  }

  lemma SameArrivals(k: Timed, st: State, step: Step)
    requires k.db == st.db && k.past.arrived == Arrived(st)
    ensures Tick(k, step).db == Apply(st, step).db && Tick(k, step).past.arrived == Arrived(Apply(st, step))
  {
    var moved := Mapped(Move(KeySet(st.db.summaries), step), st.fates);
    forall i | 0 <= i < |st.fates| ensures Mapped(AuditOf(), moved)[i] == Arrived(st)[i] {
      MoveKeepsAudit(KeySet(st.db.summaries), step, st.fates[i]);
    }
    assert Mapped(AuditOf(), moved) == Arrived(st);
    if step.Arrive? { MappedLast(AuditOf(), moved, Fate(step.audit, true, false, false)); }
    hide Execute, Move, KeySet;
  }

  lemma {:induction false} SameRun(epoch: int, steps: seq<Step>)
    ensures Timeline(epoch, steps).db == Run(steps).db && Timeline(epoch, steps).past.arrived == Arrived(Run(steps))
  {
    if |steps| > 0 {
      var front := steps[..|steps| - 1];
      SameRun(epoch, front);
      hide Tick, Apply, Arrived;
      SameArrivals(Timeline(epoch, front), Run(front), steps[|steps| - 1]);
    }
  }

  /** At the clock's own cutoffs the fate of every request follows from them: it is
      raw until a DELETE passes it; behind its hour row, or its day row, once an
      INSERT has passed it and until a DELETE does, unless a used cutoff had cut it
      off from its bucket. */
  lemma {:induction false} FatesFollowCutoffs(epoch: int, steps: seq<Step>)
    requires OnTime(epoch, steps)
    ensures forall f :: f in Run(steps).fates ==> Placed(Timeline(epoch, steps), f)
  {
    if |steps| > 0 {
      var front := steps[..|steps| - 1];
      FatesFollowCutoffs(epoch, front);
      RunKeepsInv(epoch, front);
      SameRun(epoch, front);
      hide Inv, Placed, Tick, Apply, Timely, Arrived;
      ApplyPlaces(epoch, Timeline(epoch, front), Run(front), steps[|steps| - 1]);
    }
  }

  // ----- what is lost at the clock's cutoffs

  /** Deleted behind a stored hour, or behind a stored day. */
  predicate LostAt(k: Timed, a: Audit) {
    Tierable(a) && a.timestamp < k.marks.rawOut &&
    (HourCut(k.past.arrived, k.past.raw, a) ||
     (TruncHour(a.timestamp) < k.marks.hoursOut && DayCut(k.past.arrived, k.past.hourly, a)))
  }

  lemma LostMeans(epoch: int, k: Timed, f: Fate)
    requires MarksMatch(epoch, k.marks, k.past) && Placed(k, f)
    ensures Lost(f) <==> LostAt(k, f.audit)
  {
    assert KeptAudit(k.marks.rawOut)(f.audit) <==> !(Tierable(f.audit) && f.audit.timestamp < k.marks.rawOut);
    hide Tierable, HourCut, DayCut, TruncHour, HourEnd;
  }

  /** No INSERT waits for its DELETE. */
  predicate Settled(m: Marks) { m.rawOut == m.hoursIn && m.hoursOut == m.daysIn }

  lemma SettledOnce(epoch: int, k: Timed, f: Fate)
    requires MarksMatch(epoch, k.marks, k.past) && Placed(k, f) && Settled(k.marks)
    ensures !AlsoRaw(f) && !AlsoHour(f)
  {
    assert KeptAudit(k.marks.rawOut)(f.audit) <==> !(Tierable(f.audit) && f.audit.timestamp < k.marks.rawOut);
    HourEndMeans(f.audit.timestamp, k.marks.daysIn);
    hide Tierable, HourCut, DayCut, TruncHour, HourEnd;
  }

  /** Whatever the cutoffs: once no INSERT waits for its DELETE the tables hold what
      arrived exactly when no request was deleted behind a bucket it had been cut
      off from. */
  lemma ClockLosslessIff(epoch: int, steps: seq<Step>)
    requires OnTime(epoch, steps) && Settled(Timeline(epoch, steps).marks)
    ensures Total(Run(steps).db) == Sum(ArrivedFate(), Run(steps).fates) <==>
            forall f :: f in Run(steps).fates ==> !LostAt(Timeline(epoch, steps), f.audit)
  {
    FatesFollowCutoffs(epoch, steps);
    RunKeepsInv(epoch, steps);
    var k := Timeline(epoch, steps);
    assert MarksMatch(epoch, k.marks, k.past);
    hide MarksMatch, Inv, Placed, Timeline, Run, Total, Sum, LostAt, Lost, Settled, AlsoRaw, AlsoHour;
    forall f | f in Run(steps).fates ensures Lost(f) <==> LostAt(k, f.audit) { LostMeans(epoch, k, f); }
    forall f | f in Run(steps).fates ensures !AlsoRaw(f) && !AlsoHour(f) { SettledOnce(epoch, k, f); }
    LosslessIff(steps);
  }

  // ----- cutoffs on period boundaries

  ghost predicate OnBoundaries(past: Past) {
    (forall c :: c in past.raw ==> c % HOUR == 0) && (forall d :: d in past.hourly ==> d % DAY == 0)
  }

  lemma AlignedNeverCuts(past: Past, a: Audit)
    requires OnBoundaries(past)
    ensures !HourCut(past.arrived, past.raw, a) && !DayCut(past.arrived, past.hourly, a)
  {
    hide Tierable;
    if HourCut(past.arrived, past.raw, a) {
      var b, c :| b in past.arrived && c in past.raw && Tierable(b) && HourKey(b) == HourKey(a) && b.timestamp < c <= a.timestamp;
      SameHourSameSide(b.timestamp, a.timestamp, c);
    }
    if DayCut(past.arrived, past.hourly, a) {
      var b, d :| b in past.arrived && d in past.hourly && Tierable(b) && AuditDay(b) == AuditDay(a) &&
                  TruncHour(b.timestamp) < d <= TruncHour(a.timestamp);
      SameDaySameSide(TruncHour(b.timestamp), TruncHour(a.timestamp), d);
    }
  }

  lemma SameHourSameSide(t: int, u: int, c: int)
    requires c % HOUR == 0 && TruncHour(t) == TruncHour(u)
    ensures !(t < c <= u)
  {
    if t < c { NextHour(t, c); }
  }

  lemma NextHour(t: int, c: int)
    requires c % HOUR == 0 && t < c
    ensures TruncHour(t) + HOUR <= c
  {
  }

  lemma SameDaySameSide(t: int, u: int, d: int)
    requires d % DAY == 0 && TruncDay(t) == TruncDay(u)
    ensures !(t < d <= u)
  {
    if t < d { NextDay(t, d); }
  }

  lemma NextDay(t: int, d: int)
    requires d % DAY == 0 && t < d
    ensures TruncDay(t) + DAY <= d
  {
  }

  /** Raw cutoffs on the hour and hourly cutoffs on the day lose nothing, whatever
      fails in between. */
  lemma AlignedCutoffsLoseNothing(epoch: int, steps: seq<Step>)
    requires OnTime(epoch, steps) && OnBoundaries(Timeline(epoch, steps).past)
    ensures forall f :: f in Run(steps).fates ==> !Lost(f)
  {
    FatesFollowCutoffs(epoch, steps);
    RunKeepsInv(epoch, steps);
    var k := Timeline(epoch, steps);
    assert MarksMatch(epoch, k.marks, k.past);
    hide MarksMatch, Inv, Placed, Timeline, Run, Lost, OnBoundaries, HourCut, DayCut, Tierable;
    forall f | f in Run(steps).fates ensures !Lost(f) {
      LostMeans(epoch, k, f);
      AlignedNeverCuts(k.past, f.audit);
    }
  }
}
