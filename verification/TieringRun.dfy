/** Runs of the tiering statements, in any order and at any cutoffs, with each
    request followed by itself: the tables hold what the requests' fates say. */
module TieringRun {
  import opened Rows
  import opened Tiers
  import opened TieringLaws

  /** One atomic database step.  A statement that fails is simply absent. */
  datatype Step =
    | Arrive(audit: Audit)
    | DoInsertHours(cutoff: int)
    | DoDeleteAudits(cutoff: int)
    | DoInsertDays(cutoff: int)
    | DoDeleteHours(cutoff: int)

  function Execute(db: Db, step: Step): Db {
    match step
    case Arrive(a) => db.(audits := db.audits + [a])
    case DoInsertHours(c) => InsertHours(db, c)
    case DoDeleteAudits(c) => DeleteAudits(db, c)
    case DoInsertDays(d) => InsertDays(db, d)
    case DoDeleteHours(d) => DeleteHours(db, d)
  }

  /** Where a request is: in the raw table, behind its hour row, behind its day
      row, in several of them, or in none. */
  datatype Fate = Fate(audit: Audit, raw: bool, hour: bool, day: bool)

  function DayOf(key: Key): Key { Key(TruncDay(key.start), Day, key.project, key.service) }

  function AuditDay(a: Audit): Key { DayOf(HourKey(a)) }

  /** What a statement does to one request, given the keys stored before it: an
      INSERT takes it along exactly when its bucket is not stored yet. */
  function Move(stored: set<Key>, step: Step): Fate -> Fate {
    (f: Fate) =>
      match step
      case Arrive(_) => f
      case DoInsertHours(c) => f.(hour := f.hour || (f.raw && OldAudit(c)(f.audit) && HourKey(f.audit) !in stored))
      case DoDeleteAudits(c) => f.(raw := f.raw && KeptAudit(c)(f.audit))
      case DoInsertDays(d) =>
        f.(day := f.day || (f.hour && TruncHour(f.audit.timestamp) < d && AuditDay(f.audit) !in stored))
      case DoDeleteHours(d) => f.(hour := f.hour && d <= TruncHour(f.audit.timestamp))
  }

  datatype State = State(db: Db, fates: seq<Fate>)

  function Apply(st: State, step: Step): State {
    var moved := Mapped(Move(KeySet(st.db.summaries), step), st.fates);
    State(Execute(st.db, step), if step.Arrive? then moved + [Fate(step.audit, true, false, false)] else moved)
  }

  function Run(steps: seq<Step>): State {
    if |steps| == 0 then State(Db([], []), []) else Apply(Run(steps[..|steps| - 1]), steps[|steps| - 1])
  }

  function AuditOf(): Fate -> Audit { (f: Fate) => f.audit }

  function IsRaw(): Fate -> bool { (f: Fate) => f.raw }

  /** The requests that arrived, in order. */
  function Arrived(st: State): seq<Audit> { Mapped(AuditOf(), st.fates) }

  // ----- chosen buckets

  /** A choice of buckets. */
  type Choice = Key -> bool

  function HourWeight(sel: Choice): Summary -> Totals {
    (r: Summary) => if r.key.period == Hour && sel(r.key) then SummaryTotals(r) else ZERO
  }

  function DayWeight(sel: Choice): Summary -> Totals {
    (r: Summary) => if r.key.period == Day && sel(r.key) then SummaryTotals(r) else ZERO
  }

  /** What the requests behind the chosen hour rows weigh. */
  function HourFate(sel: Choice): Fate -> Totals {
    (f: Fate) => if f.hour && sel(HourKey(f.audit)) then AuditTotals(f.audit) else ZERO
  }

  function DayFate(sel: Choice): Fate -> Totals {
    (f: Fate) => if f.day && sel(AuditDay(f.audit)) then AuditTotals(f.audit) else ZERO
  }

  /** Who is behind a row has its row stored. */
  ghost predicate FateOk(stored: set<Key>, f: Fate) {
    && (f.hour ==> Tierable(f.audit) && HourKey(f.audit) in stored)
    && (f.day ==> Tierable(f.audit) && AuditDay(f.audit) in stored)
  }

  ghost predicate Tracked(st: State) {
    && Valid(st.db)
    && st.db.audits == Mapped(AuditOf(), Filter(IsRaw(), st.fates))
    && forall f :: f in st.fates ==> FateOk(KeySet(st.db.summaries), f)
  }

  ghost predicate Held(st: State, sel: Choice) {
    && Sum(HourWeight(sel), st.db.summaries) == Sum(HourFate(sel), st.fates)
    && Sum(DayWeight(sel), st.db.summaries) == Sum(DayFate(sel), st.fates)
  }

  // ----- one INSERT, measured on its input

  /** Weights that agree with a choice made on the target key. */
  function Chosen<T>(k: T -> Key, w: T -> Totals, sel: Choice): T -> Totals {
    x => if sel(k(x)) then w(x) else ZERO
  }

  lemma ChosenGroup<T(!new)>(k: T -> Key, w: T -> Totals, sel: Choice, stored: set<Key>, key: Key, s: seq<T>)
    requires key in Keys(k, s)
    ensures Sum(Unblocked(k, Chosen(k, w, sel), stored), Group(k, key, s)) ==
            if key in stored || !sel(key) then ZERO else Sum(w, Group(k, key, s))
  {
    UnblockedGroup(k, Chosen(k, w, sel), stored, key, s);
    GroupNonEmpty(k, key, s);
    if sel(key) {
      SumCongruent(Chosen(k, w, sel), w, Group(k, key, s));
    } else {
      SumZero(Chosen(k, w, sel), Group(k, key, s));
    }
  }

  lemma HourGroupWeight(sel: Choice, db: Db, c: int, key: Key)
    requires key in Keys(HourKey, Filter(OldAudit(c), db.audits))
    ensures var (s, stored) := (Filter(OldAudit(c), db.audits), KeySet(db.summaries));
            Sum(Unblocked(HourKey, Chosen(HourKey, AuditTotals, sel), stored), Group(HourKey, key, s)) ==
            if key in stored then ZERO else HourWeight(sel)(HourRow(key, Group(HourKey, key, s)))
  {
    var (s, stored) := (Filter(OldAudit(c), db.audits), KeySet(db.summaries));
    ChosenGroup(HourKey, AuditTotals, sel, stored, key, s);
    GroupNonEmpty(HourKey, key, s);
    var g := Group(HourKey, key, s);
    assert g[0] in g;
    HourRowTotals(key, g);
  }

  lemma HoursInsertedWeigh(sel: Choice, db: Db, c: int)
    ensures Sum(HourWeight(sel), InsertHours(db, c).summaries) ==
            Plus(Sum(HourWeight(sel), db.summaries),
                 Sum(Unblocked(HourKey, Chosen(HourKey, AuditTotals, sel), KeySet(db.summaries)), Filter(OldAudit(c), db.audits)))
  {
    var (s, stored) := (Filter(OldAudit(c), db.audits), KeySet(db.summaries));
    var w := Unblocked(HourKey, Chosen(HourKey, AuditTotals, sel), stored);
    forall key | key in Keys(HourKey, s)
      ensures Sum(w, Group(HourKey, key, s)) ==
              if key in stored then ZERO else HourWeight(sel)(HourRow(key, Group(HourKey, key, s)))
    {
      HourGroupWeight(sel, db, c, key);
    }
    hide HourWeight, Keys, Filter;
    InsertedSum(HourKey, HourRow, s, stored, w, HourWeight(sel));
    SumAppend(HourWeight(sel), db.summaries, Filter(Missing(stored), HourRows(db, c)));
  }

  lemma DayGroupWeight(sel: Choice, db: Db, d: int, key: Key)
    requires Valid(db) && key in Keys(DayKey, Filter(OldHour(d), db.summaries))
    ensures var (s, stored) := (Filter(OldHour(d), db.summaries), KeySet(db.summaries));
            Sum(Unblocked(DayKey, Chosen(DayKey, SummaryTotals, sel), stored), Group(DayKey, key, s)) ==
            if key in stored then ZERO else DayWeight(sel)(DayRow(key, Group(DayKey, key, s)))
  {
    var (s, stored) := (Filter(OldHour(d), db.summaries), KeySet(db.summaries));
    ChosenGroup(DayKey, SummaryTotals, sel, stored, key, s);
    FilterMembers(OldHour(d), db.summaries);
    GroupNonEmpty(DayKey, key, s);
    var g := Group(DayKey, key, s);
    assert g[0] in g;
    DayRowTotals(key, g);
  }

  /** The hour rows a roll-up turns into chosen day rows. */
  function RolledInto(sel: Choice, stored: set<Key>, d: int): Choice {
    (k: Key) => k.start < d && DayOf(k) !in stored && sel(DayOf(k))
  }

  lemma RolledWeight(sel: Choice, stored: set<Key>, d: int, r: Summary)
    ensures HourWeight(RolledInto(sel, stored, d))(r) ==
            if OldHour(d)(r) then Unblocked(DayKey, Chosen(DayKey, SummaryTotals, sel), stored)(r) else ZERO
  {
    assert DayKey(r) == DayOf(r.key);
  }

  lemma DaysInsertedWeigh(sel: Choice, db: Db, d: int)
    requires Valid(db)
    ensures Sum(DayWeight(sel), InsertDays(db, d).summaries) ==
            Plus(Sum(DayWeight(sel), db.summaries), Sum(HourWeight(RolledInto(sel, KeySet(db.summaries), d)), db.summaries))
  {
    var (s, stored) := (Filter(OldHour(d), db.summaries), KeySet(db.summaries));
    var added := Filter(Missing(stored), DayRows(db, d));
    var (w, v) := (Unblocked(DayKey, Chosen(DayKey, SummaryTotals, sel), stored), DayWeight(sel));
    SumAppend(v, db.summaries, added);
    forall key | key in Keys(DayKey, s)
      ensures Sum(w, Group(DayKey, key, s)) == if key in stored then ZERO else v(DayRow(key, Group(DayKey, key, s)))
    {
      DayGroupWeight(sel, db, d, key);
    }
    hide DayWeight, HourWeight, RolledInto, Chosen, Keys, Valid;
    InsertedSum(DayKey, DayRow, s, stored, w, v);
    forall r | r in db.summaries
      ensures HourWeight(RolledInto(sel, stored, d))(r) == if OldHour(d)(r) then w(r) else ZERO
    {
      RolledWeight(sel, stored, d, r);
    }
    SumFilter(w, OldHour(d), HourWeight(RolledInto(sel, stored, d)), db.summaries);
  }

  lemma NoDayWeight(sel: Choice, rows: seq<Summary>)
    requires forall r :: r in rows ==> r.key.period == Hour
    ensures Sum(DayWeight(sel), rows) == ZERO
  {
    SumZero(DayWeight(sel), rows);
  }

  lemma NoHourWeight(sel: Choice, rows: seq<Summary>)
    requires forall r :: r in rows ==> r.key.period == Day
    ensures Sum(HourWeight(sel), rows) == ZERO
  {
    SumZero(HourWeight(sel), rows);
  }

  lemma HoursAdded(db: Db, c: int) returns (added: seq<Summary>)
    ensures InsertHours(db, c).summaries == db.summaries + added
    ensures forall r :: r in added ==> r.key.period == Hour
  {
    added := Filter(Missing(KeySet(db.summaries)), HourRows(db, c));
    FilterMembers(Missing(KeySet(db.summaries)), HourRows(db, c));
    forall r | r in added ensures r.key.period == Hour { var _ := HourRowSource(db, c, r); }
  }

  lemma DaysAdded(db: Db, d: int) returns (added: seq<Summary>)
    ensures InsertDays(db, d).summaries == db.summaries + added
    ensures forall r :: r in added ==> r.key.period == Day
  {
    added := Filter(Missing(KeySet(db.summaries)), DayRows(db, d));
    FilterMembers(Missing(KeySet(db.summaries)), DayRows(db, d));
    DayRowsAreDays(db, d);
  }

  lemma DaysUntouched(sel: Choice, db: Db, c: int)
    ensures Sum(DayWeight(sel), InsertHours(db, c).summaries) == Sum(DayWeight(sel), db.summaries)
  {
    hide *;
    var added := HoursAdded(db, c);
    NoDayWeight(sel, added);
    SumAppend(DayWeight(sel), db.summaries, added);
    PlusMoves(ZERO, Sum(DayWeight(sel), db.summaries), ZERO);
  }

  lemma HoursUntouched(sel: Choice, db: Db, d: int)
    ensures Sum(HourWeight(sel), InsertDays(db, d).summaries) == Sum(HourWeight(sel), db.summaries)
  {
    hide *;
    var added := DaysAdded(db, d);
    NoHourWeight(sel, added);
    SumAppend(HourWeight(sel), db.summaries, added);
    PlusMoves(ZERO, Sum(HourWeight(sel), db.summaries), ZERO);
  }

  /** The choice, from a time on. */
  function From(sel: Choice, d: int): Choice { (k: Key) => sel(k) && d <= k.start }

  lemma HoursDeletedWeigh(sel: Choice, db: Db, d: int)
    ensures Sum(HourWeight(sel), DeleteHours(db, d).summaries) == Sum(HourWeight(From(sel, d)), db.summaries)
    ensures Sum(DayWeight(sel), DeleteHours(db, d).summaries) == Sum(DayWeight(sel), db.summaries)
  {
    SumFilter(HourWeight(sel), KeptSummary(d), HourWeight(From(sel, d)), db.summaries);
    SumFilter(DayWeight(sel), KeptSummary(d), DayWeight(sel), db.summaries);
  }

  // ----- following the requests

  lemma MovedSum(w: Fate -> Totals, stored: set<Key>, step: Step, v: Fate -> Totals, fates: seq<Fate>)
    requires forall f :: f in fates ==> v(f) == w(Move(stored, step)(f))
    ensures Sum(w, Mapped(Move(stored, step), fates)) == Sum(v, fates)
  {
    SumMapped(w, Move(stored, step), v, fates);
  }

  /** The requests an INSERT of hours takes along, if chosen. */
  function TakenHour(sel: Choice, stored: set<Key>, c: int): Fate -> Totals {
    (f: Fate) =>
      if f.raw && OldAudit(c)(f.audit) && HourKey(f.audit) !in stored && sel(HourKey(f.audit))
      then AuditTotals(f.audit) else ZERO
  }

  lemma TakenSum(sel: Choice, st: State, c: int)
    requires Tracked(st)
    ensures Sum(Unblocked(HourKey, Chosen(HourKey, AuditTotals, sel), KeySet(st.db.summaries)), Filter(OldAudit(c), st.db.audits)) ==
            Sum(TakenHour(sel, KeySet(st.db.summaries), c), st.fates)
  {
    var stored := KeySet(st.db.summaries);
    var w := Unblocked(HourKey, Chosen(HourKey, AuditTotals, sel), stored);
    var v := (a: Audit) => if OldAudit(c)(a) then w(a) else ZERO;
    var u := (f: Fate) => v(f.audit);
    assert st.db.audits == Mapped(AuditOf(), Filter(IsRaw(), st.fates));
    SumFilter(w, OldAudit(c), v, st.db.audits);
    SumMapped(v, AuditOf(), u, Filter(IsRaw(), st.fates));
    SumFilter(u, IsRaw(), TakenHour(sel, stored, c), st.fates);
  }

  lemma HeldFrom(st: State, db: Db, fates: seq<Fate>, sel: Choice)
    requires st == State(db, fates)
    requires Sum(HourWeight(sel), db.summaries) == Sum(HourFate(sel), fates)
    requires Sum(DayWeight(sel), db.summaries) == Sum(DayFate(sel), fates)
    ensures Held(st, sel)
  {
  }

  lemma HeldMeans(st: State, sel: Choice)
    requires Held(st, sel)
    ensures Sum(HourWeight(sel), st.db.summaries) == Sum(HourFate(sel), st.fates)
    ensures Sum(DayWeight(sel), st.db.summaries) == Sum(DayFate(sel), st.fates)
  {
  }

  lemma InsertedHours(st: State, c: int)
    ensures Apply(st, DoInsertHours(c)) ==
            State(InsertHours(st.db, c), Mapped(Move(KeySet(st.db.summaries), DoInsertHours(c)), st.fates))
  {
  }

  lemma InsertedDays(st: State, d: int)
    ensures Apply(st, DoInsertDays(d)) ==
            State(InsertDays(st.db, d), Mapped(Move(KeySet(st.db.summaries), DoInsertDays(d)), st.fates))
  {
  }

  lemma InsertHoursHeld(sel: Choice, st: State, c: int)
    requires Tracked(st) && Held(st, sel)
    ensures Held(Apply(st, DoInsertHours(c)), sel)
  {
    var stored := KeySet(st.db.summaries);
    assert Valid(st.db) && forall f :: f in st.fates ==> FateOk(stored, f);
    HeldMeans(st, sel);
    HoursInsertedWeigh(sel, st.db, c);
    TakenSum(sel, st, c);
    DaysUntouched(sel, st.db, c);
    InsertHoursMoves(sel, stored, c, st.fates);
    hide *;
    InsertedHours(st, c);
    HeldFrom(Apply(st, DoInsertHours(c)), InsertHours(st.db, c), Mapped(Move(stored, DoInsertHours(c)), st.fates), sel);
  }

  lemma InsertHoursMoves(sel: Choice, stored: set<Key>, c: int, fates: seq<Fate>)
    requires forall f :: f in fates ==> FateOk(stored, f)
    ensures Sum(HourFate(sel), Mapped(Move(stored, DoInsertHours(c)), fates)) ==
            Plus(Sum(HourFate(sel), fates), Sum(TakenHour(sel, stored, c), fates))
    ensures Sum(DayFate(sel), Mapped(Move(stored, DoInsertHours(c)), fates)) == Sum(DayFate(sel), fates)
  {
    var both := (f: Fate) => Plus(HourFate(sel)(f), TakenHour(sel, stored, c)(f));
    forall f | f in fates
      ensures both(f) == HourFate(sel)(Move(stored, DoInsertHours(c))(f))
      ensures DayFate(sel)(f) == DayFate(sel)(Move(stored, DoInsertHours(c))(f))
    {
      hide HourKey, AuditTotals, Tierable, AuditDay;
    }
    MovedSum(HourFate(sel), stored, DoInsertHours(c), both, fates);
    MovedSum(DayFate(sel), stored, DoInsertHours(c), DayFate(sel), fates);
    SumSplit(both, HourFate(sel), TakenHour(sel, stored, c), fates);
  }

  lemma RolledFate(sel: Choice, stored: set<Key>, d: int, f: Fate)
    requires FateOk(stored, f)
    ensures DayFate(sel)(Move(stored, DoInsertDays(d))(f)) ==
            Plus(DayFate(sel)(f), HourFate(RolledInto(sel, stored, d))(f))
    ensures HourFate(sel)(Move(stored, DoInsertDays(d))(f)) == HourFate(sel)(f)
  {
    var a, t := f.audit, AuditTotals(f.audit);
    var taken := f.hour && TruncHour(a.timestamp) < d && AuditDay(a) !in stored;
    assert HourKey(a).start == TruncHour(a.timestamp);
    assert HourFate(RolledInto(sel, stored, d))(f) == if taken && sel(AuditDay(a)) then t else ZERO;
    assert Move(stored, DoInsertDays(d))(f) == f.(day := f.day || taken);
    hide HourKey, AuditTotals, Tierable, TruncHour, RolledInto, Move, Plus, DayOf;
    PlusEither(f.day && sel(AuditDay(a)), taken && sel(AuditDay(a)), t);
  }

  lemma PlusEither(p: bool, q: bool, w: Totals)
    requires !(p && q)
    ensures (if p || q then w else ZERO) == Plus(if p then w else ZERO, if q then w else ZERO)
  {
  }

  lemma InsertDaysMoves(sel: Choice, stored: set<Key>, d: int, fates: seq<Fate>)
    requires forall f :: f in fates ==> FateOk(stored, f)
    ensures Sum(DayFate(sel), Mapped(Move(stored, DoInsertDays(d)), fates)) ==
            Plus(Sum(DayFate(sel), fates), Sum(HourFate(RolledInto(sel, stored, d)), fates))
    ensures Sum(HourFate(sel), Mapped(Move(stored, DoInsertDays(d)), fates)) == Sum(HourFate(sel), fates)
  {
    var into := RolledInto(sel, stored, d);
    var both := (f: Fate) => Plus(DayFate(sel)(f), HourFate(into)(f));
    forall f | f in fates
      ensures both(f) == DayFate(sel)(Move(stored, DoInsertDays(d))(f))
      ensures HourFate(sel)(f) == HourFate(sel)(Move(stored, DoInsertDays(d))(f))
    {
      RolledFate(sel, stored, d, f);
    }
    hide DayFate, HourFate, Move, Sum, FateOk, RolledInto;
    MovedSum(DayFate(sel), stored, DoInsertDays(d), both, fates);
    MovedSum(HourFate(sel), stored, DoInsertDays(d), HourFate(sel), fates);
    SumSplit(both, DayFate(sel), HourFate(into), fates);
  }

  lemma InsertDaysHeld(sel: Choice, st: State, d: int)
    requires Tracked(st) && Held(st, sel) && Held(st, RolledInto(sel, KeySet(st.db.summaries), d))
    ensures Held(Apply(st, DoInsertDays(d)), sel)
  {
    var stored := KeySet(st.db.summaries);
    assert Valid(st.db) && forall f :: f in st.fates ==> FateOk(stored, f);
    HeldMeans(st, sel);
    HeldMeans(st, RolledInto(sel, stored, d));
    DaysInsertedWeigh(sel, st.db, d);
    HoursUntouched(sel, st.db, d);
    InsertDaysMoves(sel, stored, d, st.fates);
    hide *;
    InsertedDays(st, d);
    HeldFrom(Apply(st, DoInsertDays(d)), InsertDays(st.db, d), Mapped(Move(stored, DoInsertDays(d)), st.fates), sel);
  }

  lemma DeleteHoursMoves(sel: Choice, stored: set<Key>, d: int, fates: seq<Fate>)
    ensures Sum(HourFate(sel), Mapped(Move(stored, DoDeleteHours(d)), fates)) == Sum(HourFate(From(sel, d)), fates)
    ensures Sum(DayFate(sel), Mapped(Move(stored, DoDeleteHours(d)), fates)) == Sum(DayFate(sel), fates)
  {
    forall f | f in fates
      ensures HourFate(From(sel, d))(f) == HourFate(sel)(Move(stored, DoDeleteHours(d))(f))
      ensures DayFate(sel)(f) == DayFate(sel)(Move(stored, DoDeleteHours(d))(f))
    {
      assert HourKey(f.audit).start == TruncHour(f.audit.timestamp);
      hide HourKey, AuditTotals, TruncHour;
    }
    MovedSum(HourFate(sel), stored, DoDeleteHours(d), HourFate(From(sel, d)), fates);
    MovedSum(DayFate(sel), stored, DoDeleteHours(d), DayFate(sel), fates);
  }

  lemma DeleteHoursHeld(sel: Choice, st: State, d: int)
    requires Held(st, sel) && Held(st, From(sel, d))
    ensures Held(Apply(st, DoDeleteHours(d)), sel)
  {
    HoursDeletedWeigh(sel, st.db, d);
    DeleteHoursMoves(sel, KeySet(st.db.summaries), d, st.fates);
    hide HourWeight, DayWeight, HourFate, DayFate, From, Sum, DeleteHours, Move, Mapped, KeySet;
  }

  lemma RawMoves(sel: Choice, stored: set<Key>, step: Step, fates: seq<Fate>)
    requires step.Arrive? || step.DoDeleteAudits?
    ensures Sum(HourFate(sel), Mapped(Move(stored, step), fates)) == Sum(HourFate(sel), fates)
    ensures Sum(DayFate(sel), Mapped(Move(stored, step), fates)) == Sum(DayFate(sel), fates)
  {
    MovedSum(HourFate(sel), stored, step, HourFate(sel), fates);
    MovedSum(DayFate(sel), stored, step, DayFate(sel), fates);
  }

  lemma RawHeld(sel: Choice, st: State, step: Step)
    requires Held(st, sel) && (step.Arrive? || step.DoDeleteAudits?)
    ensures Held(Apply(st, step), sel)
  {
    var moved := Mapped(Move(KeySet(st.db.summaries), step), st.fates);
    RawMoves(sel, KeySet(st.db.summaries), step, st.fates);
    if step.Arrive? {
      var f := Fate(step.audit, true, false, false);
      SumLast(HourFate(sel), moved, f);
      SumLast(DayFate(sel), moved, f);
      PlusMoves(ZERO, Sum(HourFate(sel), moved), ZERO);
      PlusMoves(ZERO, Sum(DayFate(sel), moved), ZERO);
    }
    hide HourWeight, DayWeight, Sum, Move, Mapped, KeySet, DeleteAudits;
  }

  // ----- the bookkeeping

  lemma {:induction false} RawFates(stored: set<Key>, step: Step, fates: seq<Fate>)
    ensures Mapped(AuditOf(), Filter(IsRaw(), Mapped(Move(stored, step), fates))) ==
            var raw := Mapped(AuditOf(), Filter(IsRaw(), fates));
            if step.DoDeleteAudits? then Filter(KeptAudit(step.cutoff), raw) else raw
  {
    if |fates| > 0 {
      var t, f := fates[..|fates| - 1], fates[|fates| - 1];
      RawFates(stored, step, t);
      assert fates == t + [f];
      MappedLast(Move(stored, step), t, f);
      var moved := Move(stored, step)(f);
      FilterLast(IsRaw(), Mapped(Move(stored, step), t), moved);
      FilterLast(IsRaw(), t, f);
      MappedLast(AuditOf(), Filter(IsRaw(), t), f);
      MappedLast(AuditOf(), Filter(IsRaw(), Mapped(Move(stored, step), t)), moved);
      if step.DoDeleteAudits? { FilterLast(KeptAudit(step.cutoff), Mapped(AuditOf(), Filter(IsRaw(), t)), f.audit); }
      MoveKeepsAudit(stored, step, f);
      hide Move, Mapped, Filter, AuditOf;
    }
  }

  lemma MoveKeepsAudit(stored: set<Key>, step: Step, f: Fate)
    ensures Move(stored, step)(f).audit == f.audit == AuditOf()(f)
    ensures IsRaw()(Move(stored, step)(f)) == (f.raw && (step.DoDeleteAudits? ==> KeptAudit(step.cutoff)(f.audit)))
  {
  }

  lemma AuditsTracked(st: State, step: Step)
    requires st.db.audits == Mapped(AuditOf(), Filter(IsRaw(), st.fates))
    ensures Apply(st, step).db.audits == Mapped(AuditOf(), Filter(IsRaw(), Apply(st, step).fates))
  {
    var moved := Mapped(Move(KeySet(st.db.summaries), step), st.fates);
    RawFates(KeySet(st.db.summaries), step, st.fates);
    if step.Arrive? {
      var f := Fate(step.audit, true, false, false);
      FilterLast(IsRaw(), moved, f);
      MappedLast(AuditOf(), Filter(IsRaw(), moved), f);
    }
    hide Move, Filter, KeySet;
  }

  /** Keys stored by a statement, as far as the fates need them. */
  lemma KeysKept(db: Db, step: Step, key: Key)
    requires key in KeySet(db.summaries) && !(step.DoDeleteHours? && key.period == Hour && key.start < step.cutoff)
    ensures key in KeySet(Execute(db, step).summaries)
  {
    var r :| r in db.summaries && r.key == key;
    match step
    case Arrive(_) =>
    case DoInsertHours(c) => StoreKeepsKeys(db, HourRows(db, c));
    case DoDeleteAudits(_) =>
    case DoInsertDays(d) => StoreKeepsKeys(db, DayRows(db, d));
    case DoDeleteHours(d) =>
      FilterMembers(KeptSummary(d), db.summaries);
      assert r in DeleteHours(db, d).summaries;
  }

  lemma TakenHourStored(db: Db, c: int, a: Audit)
    requires a in db.audits && OldAudit(c)(a)
    ensures HourKey(a) in KeySet(InsertHours(db, c).summaries)
  {
    OldAuditHasRow(db, c, a);
    StoreKeepsKeys(db, HourRows(db, c));
  }

  lemma TakenDayStored(db: Db, d: int, a: Audit)
    requires HourKey(a) in KeySet(db.summaries) && TruncHour(a.timestamp) < d
    ensures AuditDay(a) in KeySet(InsertDays(db, d).summaries)
  {
    var h :| h in db.summaries && h.key == HourKey(a);
    OldHourHasRow(db, d, h);
    StoreKeepsKeys(db, DayRows(db, d));
    assert DayKey(h) == AuditDay(a);
  }

  lemma MoveKeepsOk(st: State, step: Step, f: Fate)
    requires Tracked(st) && f in st.fates
    ensures FateOk(KeySet(Execute(st.db, step).summaries), Move(KeySet(st.db.summaries), step)(f))
  {
    var stored := KeySet(st.db.summaries);
    var g := Move(stored, step)(f);
    assert FateOk(stored, f);
    assert AuditDay(f.audit).period == Day && HourKey(f.audit).start == TruncHour(f.audit.timestamp);
    if f.raw { RawIsStored(st, f); }
    hide Tracked, Execute, KeySet, InsertHours, InsertDays, TruncHour, HourKey, AuditDay;
    if f.day { KeysKept(st.db, step, AuditDay(f.audit)); }
    if g.hour && f.hour { KeysKept(st.db, step, HourKey(f.audit)); }
    match step
    case DoInsertHours(c) =>
      ExecuteInserts(st.db, step);
      if g.hour && !f.hour { TakenHourStored(st.db, c, f.audit); }
    case DoInsertDays(d) =>
      ExecuteInserts(st.db, step);
      if g.day && !f.day { TakenDayStored(st.db, d, f.audit); }
    case _ =>
  }

  lemma ExecuteInserts(db: Db, step: Step)
    ensures step.DoInsertHours? ==> Execute(db, step) == InsertHours(db, step.cutoff)
    ensures step.DoInsertDays? ==> Execute(db, step) == InsertDays(db, step.cutoff)
  {
  }

  lemma RawIsStored(st: State, f: Fate)
    requires Tracked(st) && f in st.fates && f.raw
    ensures f.audit in st.db.audits
  {
    FilterMembers(IsRaw(), st.fates);
    var raw := Filter(IsRaw(), st.fates);
    assert f in raw;
    var i :| 0 <= i < |raw| && raw[i] == f;
    assert Mapped(AuditOf(), raw)[i] == f.audit;
  }

  lemma ExecuteValid(db: Db, step: Step)
    requires Valid(db)
    ensures Valid(Execute(db, step))
  {
    if !step.Arrive? { StatementsKeepTablesValid(db, step.cutoff); }
  }

  lemma ApplyTracks(st: State, step: Step)
    requires Tracked(st)
    ensures Tracked(Apply(st, step))
  {
    ExecuteValid(st.db, step);
    AuditsTracked(st, step);
    var moved := Mapped(Move(KeySet(st.db.summaries), step), st.fates);
    forall g | g in moved ensures FateOk(KeySet(Execute(st.db, step).summaries), g) {
      var i :| 0 <= i < |moved| && moved[i] == g;
      assert st.fates[i] in st.fates;
      MoveKeepsOk(st, step, st.fates[i]);
    }
    hide Valid, Execute, KeySet, Move, Filter;
  }

  lemma {:induction false} RunTracks(steps: seq<Step>)
    ensures Tracked(Run(steps))
  {
    if |steps| > 0 {
      hide Tracked, Apply;
      RunTracks(steps[..|steps| - 1]);
      ApplyTracks(Run(steps[..|steps| - 1]), steps[|steps| - 1]);
    }
  }

  // ----- the theorem

  lemma ApplyHolds(sel: Choice, st: State, step: Step)
    requires Tracked(st) && Held(st, sel)
    requires step.DoInsertDays? ==> Held(st, RolledInto(sel, KeySet(st.db.summaries), step.cutoff))
    requires step.DoDeleteHours? ==> Held(st, From(sel, step.cutoff))
    ensures Held(Apply(st, step), sel)
  {
    hide Tracked, Held, Apply;
    match step
    case Arrive(_) => RawHeld(sel, st, step);
    case DoInsertHours(c) => InsertHoursHeld(sel, st, c);
    case DoDeleteAudits(_) => RawHeld(sel, st, step);
    case DoInsertDays(d) => InsertDaysHeld(sel, st, d);
    case DoDeleteHours(d) => DeleteHoursHeld(sel, st, d);
  }

  /** The tables tell the fates of the requests: in every run of any statements at
      any cutoffs, failed, repeated or out of order, with requests of any age, the
      hour rows and the day rows of any choice of buckets weigh exactly what the
      requests behind them weigh. */
  lemma {:induction false} FatesHold(sel: Choice, steps: seq<Step>)
    ensures Held(Run(steps), sel)
    decreases |steps|
  {
    if |steps| > 0 {
      var front, step := steps[..|steps| - 1], steps[|steps| - 1];
      RunTracks(front);
      FatesHold(sel, front);
      if step.DoInsertDays? { FatesHold(RolledInto(sel, KeySet(Run(front).db.summaries), step.cutoff), front); }
      if step.DoDeleteHours? { FatesHold(From(sel, step.cutoff), front); }
      hide Tracked, Held, Apply;
      ApplyHolds(sel, Run(front), step);
    }
  }

  // ----- what is lost

  function Any(): Choice { (k: Key) => true }

  function RawFate(): Fate -> Totals { (f: Fate) => if f.raw then TierTotals(f.audit) else ZERO }

  /** A request the tables do not hold at all. */
  predicate Lost(f: Fate) { Tierable(f.audit) && !f.raw && !f.hour && !f.day }

  function LostFate(): Fate -> Totals { (f: Fate) => if Lost(f) then AuditTotals(f.audit) else ZERO }

  function ArrivedFate(): Fate -> Totals { (f: Fate) => TierTotals(f.audit) }

  /** A request held raw although it is behind a summary. */
  predicate AlsoRaw(f: Fate) { f.raw && (f.hour || f.day) }

  /** A request behind its hour row although it is behind its day row. */
  predicate AlsoHour(f: Fate) { f.hour && f.day }

  /** What is counted once too often, or twice. */
  function AgainFate(): Fate -> Totals {
    (f: Fate) => Plus(When(AlsoRaw(f), AuditTotals(f.audit)), When(AlsoHour(f), AuditTotals(f.audit)))
  }

  function When(b: bool, t: Totals): Totals { if b then t else ZERO }

  lemma FlagsBalance(raw: bool, hour: bool, day: bool, t: Totals)
    ensures Plus(Plus(When(raw, t), Plus(When(hour, t), When(day, t))), When(!raw && !hour && !day, t)) ==
            Plus(t, Plus(When(raw && (hour || day), t), When(hour && day, t)))
  {
    PlusMoves(ZERO, t, ZERO);
    PlusMoves(t, ZERO, ZERO);
    PlusMoves(t, t, t);
    PlusMoves(ZERO, ZERO, ZERO);
    PlusMoves(ZERO, Plus(t, t), ZERO);
    PlusMoves(ZERO, Plus(t, Plus(t, t)), ZERO);
    hide Plus;
  }

  lemma FateBalances(f: Fate)
    requires (f.hour || f.day) ==> Tierable(f.audit)
    ensures Plus(Plus(RawFate()(f), Plus(HourFate(Any())(f), DayFate(Any())(f))), LostFate()(f)) ==
            Plus(ArrivedFate()(f), AgainFate()(f))
  {
    if Tierable(f.audit) {
      FlagsBalance(f.raw, f.hour, f.day, AuditTotals(f.audit));
    } else {
      FlagsBalance(f.raw, f.hour, f.day, ZERO);
    }
    hide AuditTotals, Tierable, HourKey, AuditDay, Plus;
  }

  lemma TotalIsSum(st: State)
    requires Tracked(st) && Held(st, Any())
    ensures Total(st.db) ==
            Plus(Sum(RawFate(), st.fates), Plus(Sum(HourFate(Any()), st.fates), Sum(DayFate(Any()), st.fates)))
  {
    var v := (f: Fate) => TierTotals(f.audit);
    SumMapped(TierTotals, AuditOf(), v, Filter(IsRaw(), st.fates));
    SumFilter(v, IsRaw(), RawFate(), st.fates);
    forall r | r in st.db.summaries ensures SummaryTotals(r) == Plus(HourWeight(Any())(r), DayWeight(Any())(r)) {
      assert Any()(r.key);
      hide SummaryTotals;
    }
    SumSplit(SummaryTotals, HourWeight(Any()), DayWeight(Any()), st.db.summaries);
  }

  lemma BalanceSums(fates: seq<Fate>)
    requires forall f :: f in fates ==> ((f.hour || f.day) ==> Tierable(f.audit))
    ensures Plus(Plus(Sum(RawFate(), fates), Plus(Sum(HourFate(Any()), fates), Sum(DayFate(Any()), fates))), Sum(LostFate(), fates)) ==
            Plus(Sum(ArrivedFate(), fates), Sum(AgainFate(), fates))
  {
    var summed := (f: Fate) => Plus(HourFate(Any())(f), DayFate(Any())(f));
    var kept := (f: Fate) => Plus(RawFate()(f), summed(f));
    var all := (f: Fate) => Plus(kept(f), LostFate()(f));
    forall f | f in fates ensures all(f) == Plus(ArrivedFate()(f), AgainFate()(f)) { FateBalances(f); }
    hide RawFate, HourFate, DayFate, LostFate, ArrivedFate, AgainFate, Sum, Plus;
    SumSplit(summed, HourFate(Any()), DayFate(Any()), fates);
    SumSplit(kept, RawFate(), summed, fates);
    SumSplit(all, kept, LostFate(), fates);
    SumSplit(all, ArrivedFate(), AgainFate(), fates);
  }

  lemma OnlyTierable(st: State)
    requires Tracked(st)
    ensures forall f :: f in st.fates ==> ((f.hour || f.day) ==> Tierable(f.audit))
  {
  }

  /** The exact account of every run: what the tables hold, and what is lost, are
      the requests that arrived, and once more those counted again. */
  lemma RunAccount(steps: seq<Step>)
    ensures var st := Run(steps);
            Plus(Total(st.db), Sum(LostFate(), st.fates)) == Plus(Sum(ArrivedFate(), st.fates), Sum(AgainFate(), st.fates))
  {
    RunTracks(steps);
    FatesHold(Any(), steps);
    hide *;
    TotalIsSum(Run(steps));
    OnlyTierable(Run(steps));
    BalanceSums(Run(steps).fates);
  }

  ghost predicate NoneAgain(fates: seq<Fate>) {
    forall f :: f in fates ==> !AlsoRaw(f) && !AlsoHour(f)
  }

  /** When nothing is counted twice the tables hold what arrived exactly when no
      request is lost. */
  lemma LosslessIff(steps: seq<Step>)
    requires NoneAgain(Run(steps).fates)
    ensures Total(Run(steps).db) == Sum(ArrivedFate(), Run(steps).fates) <==> forall f :: f in Run(steps).fates ==> !Lost(f)
  {
    RunAccount(steps);
    hide Run, Total, NoneAgain;
    NoneAgainSum(Run(steps).fates);
    LostNoneIff(Run(steps).fates, Total(Run(steps).db));
  }

  lemma NoneAgainSum(fates: seq<Fate>)
    requires NoneAgain(fates)
    ensures Sum(AgainFate(), fates) == ZERO
  {
    SumZero(AgainFate(), fates);
  }

  lemma LostSums(fates: seq<Fate>)
    ensures Sum(LostFate(), fates) == ZERO || Sum(LostFate(), fates).events > 0
    ensures Sum(LostFate(), fates) == ZERO <==> forall f :: f in fates ==> !Lost(f)
  {
    var p := (f: Fate) => Lost(f);
    var w := (f: Fate) => AuditTotals(f.audit);
    hide Lost, AuditTotals;
    SumFilter(w, p, LostFate(), fates);
    SumMapped(AuditTotals, AuditOf(), w, Filter(p, fates));
    AuditSums(Mapped(AuditOf(), Filter(p, fates)));
    BlockedNoneIff(p, fates);
  }

  lemma LostNoneIff(fates: seq<Fate>, held: Totals)
    requires Plus(held, Sum(LostFate(), fates)) == Plus(Sum(ArrivedFate(), fates), ZERO)
    ensures held == Sum(ArrivedFate(), fates) <==> forall f :: f in fates ==> !Lost(f)
  {
    hide *;
    LostSums(fates);
    PlusMoves(ZERO, Sum(ArrivedFate(), fates), ZERO);
    NothingLostIff(held, Sum(LostFate(), fates), Sum(ArrivedFate(), fates));
  }
}
