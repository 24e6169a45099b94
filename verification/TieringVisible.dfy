/** The history of a project while the job runs at the clock's instants: which
    requests it does not show, told from the cutoffs. */
module TieringVisible {
  import opened Rows
  import opened Tiers
  import opened TieringRun
  import opened TieringClock
  import opened TieringHistory
  import Reads = TieringReads

  ghost predicate WholeProject(q: Query) {
    Aligned(q) && q.project != "" && q.service.None?
  }

  /** Some service of the project has the request's hour inserted already. */
  predicate Shadowed(k: Timed, a: Audit) {
    exists b :: b in k.past.arrived && Tierable(b) && b.project == a.project &&
                TruncHour(b.timestamp) == TruncHour(a.timestamp) && b.timestamp < k.marks.hoursIn
  }

  /** A request the history does not show, of those that arrived by the second
      read: cut off from its bucket, if its hour was inserted by the first read;
      else deleted by the second, or still raw behind a summary of its hour. */
  predicate HiddenAt(first: Timed, second: Timed, a: Audit) {
    if a.timestamp < first.marks.hoursIn then
      HourCut(first.past.arrived, first.past.raw, a) ||
      (TruncHour(a.timestamp) < first.marks.hoursOut && DayCut(first.past.arrived, first.past.hourly, a))
    else
      a.timestamp < second.marks.rawOut || Shadowed(first, a)
  }

  /** A request the history counts behind its hour and behind its day: the DELETE
      of its roll-up had not run. */
  predicate TwiceAt(first: Timed, a: Audit) { HourPlace(first, a) && DayPlace(first, a) }

  // ----- from the first read to the second

  /** What later steps can have changed. */
  ghost predicate Later(k: Timed, st: State, k': Timed, st': State) {
    && k.marks.hoursIn <= k'.marks.hoursIn && k.marks.rawOut <= k'.marks.rawOut
    && |st.fates| <= |st'.fates|
    && forall i :: |st.fates| <= i < |st'.fates| && Tierable(st'.fates[i].audit) ==>
                     k.marks.hoursIn <= st'.fates[i].audit.timestamp
  }

  lemma NextTick(k: Timed, step: Step)
    ensures k.marks.hoursIn <= Tick(k, step).marks.hoursIn && k.marks.rawOut <= Tick(k, step).marks.rawOut
  {
    hide Execute;
  }

  lemma LaterStep(k: Timed, st: State, k': Timed, st': State, step: Step)
    requires Later(k, st, k', st') && Timely(k'.marks, step)
    ensures Later(k, st, Tick(k', step), Apply(st', step))
  {
    NextTick(k', step);
    var next := Apply(st', step);
    forall i | |st.fates| <= i < |next.fates| && Tierable(next.fates[i].audit)
      ensures k.marks.hoursIn <= next.fates[i].audit.timestamp
    {
      if i < |st'.fates| { MoveKeepsAudit(KeySet(st'.db.summaries), step, st'.fates[i]); }
      hide Tierable, Move, KeySet, Execute;
    }
    hide Tierable, Move, KeySet, Execute, Tick;
  }

  lemma LastStep(epoch: int, front: seq<Step>, step: Step)
    ensures Run(front + [step]) == Apply(Run(front), step)
    ensures Timeline(epoch, front + [step]) == Tick(Timeline(epoch, front), step)
    ensures OnTime(epoch, front + [step]) <==> OnTime(epoch, front) && Timely(Timeline(epoch, front).marks, step)
  {
    assert (front + [step])[..|front|] == front;
    hide Apply, Tick, Timely;
  }

  lemma Unchanged(k: Timed, st: State)
    ensures Later(k, st, k, st)
  {
  }

  /** Later steps leave the marks where they were or beyond, and what arrives later
      lies beyond the hours inserted before. */
  lemma {:induction false} ReadsInOrder(epoch: int, first: seq<Step>, later: seq<Step>)
    requires OnTime(epoch, first + later)
    ensures OnTime(epoch, first)
    ensures Later(Timeline(epoch, first), Run(first), Timeline(epoch, first + later), Run(first + later))
  {
    hide *;
    if |later| == 0 {
      assert first + later == first;
      Unchanged(Timeline(epoch, first), Run(first));
    } else {
      var front, step := first + later[..|later| - 1], later[|later| - 1];
      assert first + later == front + [step];
      LastStep(epoch, front, step);
      ReadsInOrder(epoch, first, later[..|later| - 1]);
      LaterStep(Timeline(epoch, first), Run(first), Timeline(epoch, front), Run(front), step);
    }
  }

  /** What the two reads meet of a request, told from the cutoffs. */
  ghost predicate SightPlaced(first: Timed, second: Timed, s: Reads.Sight) {
    && s.audit in second.past.arrived
    && s.raw == KeptAudit(second.marks.rawOut)(s.audit)
    && s.hour == HourPlace(first, s.audit)
    && s.day == DayPlace(first, s.audit)
    && (Tierable(s.audit) && s.audit.timestamp < first.marks.hoursIn ==> s.audit in first.past.arrived)
  }

  lemma LatePlaces(epoch: int, k: Timed, a: Audit)
    requires MarksMatch(epoch, k.marks, k.past) && (Tierable(a) ==> k.marks.hoursIn <= a.timestamp)
    ensures !HourPlace(k, a) && !DayPlace(k, a)
  {
    HourEndMeans(a.timestamp, k.marks.daysIn);
    hide Tierable, HourCut, DayCut, TruncHour, HourEnd;
  }

  lemma SightIsPlaced(epoch: int, first: Timed, st: State, second: Timed, st': State, i: int)
    requires MarksMatch(epoch, first.marks, first.past) && Later(first, st, second, st') && Reads.Extends(st.fates, st'.fates)
    requires forall f :: f in st.fates ==> Placed(first, f)
    requires forall f :: f in st'.fates ==> Placed(second, f)
    requires 0 <= i < |st'.fates|
    ensures SightPlaced(first, second, Reads.Sights(st.fates, st'.fates)[i])
  {
    assert Placed(second, st'.fates[i]);
    if i < |st.fates| {
      assert Placed(first, st.fates[i]);
    } else {
      LatePlaces(epoch, first, st'.fates[i].audit);
    }
    hide HourPlace, DayPlace, KeptAudit, Tierable, MarksMatch;
  }

  lemma SightsPlaced(epoch: int, first: seq<Step>, later: seq<Step>)
    requires OnTime(epoch, first + later)
    ensures forall s :: s in Reads.SightsOf(first, later) ==>
              SightPlaced(Timeline(epoch, first), Timeline(epoch, first + later), s)
  {
    ReadsInOrder(epoch, first, later);
    RunKeepsInv(epoch, first);
    FatesFollowCutoffs(epoch, first);
    FatesFollowCutoffs(epoch, first + later);
    Reads.RunExtends(first, later);
    var (k, k') := (Timeline(epoch, first), Timeline(epoch, first + later));
    assert MarksMatch(epoch, k.marks, k.past);
    hide Run, Timeline, Later, Placed, SightPlaced, MarksMatch, Inv, Reads.Extends;
    forall s | s in Reads.SightsOf(first, later) ensures SightPlaced(k, k', s) {
      var i :| 0 <= i < |Reads.SightsOf(first, later)| && Reads.SightsOf(first, later)[i] == s;
      SightIsPlaced(epoch, k, Run(first), k', Run(first + later), i);
    }
  }

  // ----- what hides a raw row

  /** A day row starts before the hourly cutoff, so it only meets hours that were
      inserted. */
  lemma DayStartsEarly(epoch: int, k: Timed, r: Summary)
    requires Inv(epoch, k) && r in k.db.summaries && r.key.period == Day
    ensures r.key.start < k.marks.daysIn
  {
    assert r.key in KeySet(k.db.summaries);
    var b :| b in k.past.arrived && Tierable(b) && TruncHour(b.timestamp) < k.marks.daysIn && AuditDay(b) == r.key;
    assert TruncDay(TruncHour(b.timestamp)) <= TruncHour(b.timestamp);
  }

  lemma SelfShadowed(k: Timed, a: Audit)
    requires a in k.past.arrived && Tierable(a) && a.timestamp < k.marks.hoursIn
    ensures Shadowed(k, a)
  {
  }

  lemma SeenIsShadowed(q: Query, epoch: int, k: Timed, a: Audit, r: Summary)
    requires WholeProject(q) && Inv(epoch, k) && AuditMatches(q, a) && (a.timestamp < k.marks.hoursIn ==> a in k.past.arrived)
    requires r in k.db.summaries && SummaryMatches(q, r) && r.key.start == TruncHour(a.timestamp)
    ensures Shadowed(k, a)
  {
    assert Tierable(a);
    if a.timestamp < k.marks.hoursIn {
      SelfShadowed(k, a);
    } else {
      HourEndMeans(a.timestamp, k.marks.daysIn);
      assert r.key.period == Hour by { if r.key.period == Day { DayStartsEarly(epoch, k, r); } }
      assert r.key in KeySet(k.db.summaries);
      var b :| b in k.past.arrived && Tierable(b) && b.timestamp < k.marks.hoursIn && HourKey(b) == r.key;
      assert b.project == a.project;
    }
  }

  lemma ShadowedIsSeen(q: Query, epoch: int, k: Timed, a: Audit) returns (r: Summary)
    requires WholeProject(q) && Inv(epoch, k) && AuditMatches(q, a) && k.marks.rawOut <= a.timestamp && Shadowed(k, a)
    ensures r in k.db.summaries && SummaryMatches(q, r) && r.key.start == TruncHour(a.timestamp)
  {
    var b :| b in k.past.arrived && Tierable(b) && b.project == a.project &&
             TruncHour(b.timestamp) == TruncHour(a.timestamp) && b.timestamp < k.marks.hoursIn;
    RawHourKept(epoch, k, a.timestamp);
    assert HourReached(k.past.arrived, k.marks.hoursIn, HourKey(b));
    r :| r in k.db.summaries && r.key == HourKey(b);
    DayWithin(0, q.from);
    DayWithin(0, q.to);
    HourWithin(a.timestamp, q.from);
    HourWithin(a.timestamp, q.to);
  }

  /** A raw row of the query is hidden by the merge exactly when it is shadowed. */
  lemma SeenIffShadowed(q: Query, epoch: int, k: Timed, a: Audit)
    requires WholeProject(q) && Inv(epoch, k) && AuditMatches(q, a) && k.marks.rawOut <= a.timestamp
    requires a.timestamp < k.marks.hoursIn ==> a in k.past.arrived
    ensures TruncHour(a.timestamp) in Starts(SummaryPoints(k.db, q)) <==> Shadowed(k, a)
  {
    SeenStarts(k.db, q);
    hide *;
    if TruncHour(a.timestamp) in Starts(SummaryPoints(k.db, q)) {
      var r :| r in k.db.summaries && SummaryMatches(q, r) && r.key.start == TruncHour(a.timestamp);
      SeenIsShadowed(q, epoch, k, a, r);
    }
    if Shadowed(k, a) {
      var r := ShadowedIsSeen(q, epoch, k, a);
    }
  }

  // ----- what the history makes of each request

  /** Where a placed request is not behind a row. */
  lemma NoRowIff(epoch: int, k: Timed, a: Audit)
    requires MarksMatch(epoch, k.marks, k.past) && Tierable(a)
    ensures k.marks.hoursIn <= a.timestamp ==> !HourPlace(k, a) && !DayPlace(k, a)
    ensures a.timestamp < k.marks.hoursIn ==>
              (!HourPlace(k, a) && !DayPlace(k, a) <==>
               HourCut(k.past.arrived, k.past.raw, a) ||
               (TruncHour(a.timestamp) < k.marks.hoursOut && DayCut(k.past.arrived, k.past.hourly, a)))
  {
    HourEndMeans(a.timestamp, k.marks.daysIn);
    hide Tierable, HourCut, DayCut, TruncHour, HourEnd;
  }

  lemma SightShown(q: Query, epoch: int, first: Timed, second: Timed, s: Reads.Sight)
    requires WholeProject(q) && Inv(epoch, first) && first.marks.rawOut <= second.marks.rawOut
    requires SightPlaced(first, second, s) && AuditMatches(q, s.audit)
    ensures Reads.RawShown(Starts(SummaryPoints(first.db, q)), s) <==>
            second.marks.rawOut <= s.audit.timestamp && !Shadowed(first, s.audit)
    ensures s.audit.timestamp < first.marks.hoursIn ==> Shadowed(first, s.audit)
  {
    var a := s.audit;
    assert Tierable(a);
    assert s.raw <==> second.marks.rawOut <= a.timestamp by {
      assert KeptAudit(second.marks.rawOut)(a) <==> !(Tierable(a) && a.timestamp < second.marks.rawOut);
    }
    assert Reads.RawShown(Starts(SummaryPoints(first.db, q)), s) <==>
           s.raw && TruncHour(a.timestamp) !in Starts(SummaryPoints(first.db, q));
    assert a.timestamp < first.marks.hoursIn ==> a in first.past.arrived;
    hide *;
    if a.timestamp < first.marks.hoursIn { SelfShadowed(first, a); }
    if second.marks.rawOut <= a.timestamp { SeenIffShadowed(q, epoch, first, a); }
  }

  lemma SightMeans(q: Query, epoch: int, first: Timed, second: Timed, s: Reads.Sight)
    requires WholeProject(q) && Inv(epoch, first) && first.marks.rawOut <= second.marks.rawOut
    requires SightPlaced(first, second, s) && AuditMatches(q, s.audit)
    ensures Reads.Hidden(q, Starts(SummaryPoints(first.db, q)), s) <==> HiddenAt(first, second, s.audit)
    ensures Reads.Repeated(q, Starts(SummaryPoints(first.db, q)), s) <==> TwiceAt(first, s.audit)
  {
    assert Tierable(s.audit) && MarksMatch(epoch, first.marks, first.past);
    SightShown(q, epoch, first, second, s);
    NoRowIff(epoch, first, s.audit);
    hide Inv, WholeProject, MarksMatch, HourCut, DayCut, Shadowed, Tierable, TruncHour, HourPlace, DayPlace,
      AuditMatches, Starts, SummaryPoints, Reads.RawShown, KeptAudit;
  }

  // ----- over a whole run

  predicate NoneTwice(first: Timed, arrived: seq<Audit>, q: Query) {
    forall a :: a in arrived && AuditMatches(q, a) ==> !TwiceAt(first, a)
  }

  predicate NoneHidden(first: Timed, second: Timed, q: Query) {
    forall a :: a in second.past.arrived && AuditMatches(q, a) ==> !HiddenAt(first, second, a)
  }

  lemma ArrivedIsSighted(first: seq<Step>, later: seq<Step>, a: Audit)
    requires a in Arrived(Run(first + later))
    ensures exists s :: s in Reads.SightsOf(first, later) && s.audit == a
  {
    var late := Run(first + later).fates;
    var i :| 0 <= i < |late| && Mapped(AuditOf(), late)[i] == a;
    assert Reads.SightsOf(first, later)[i] in Reads.SightsOf(first, later);
    hide Run;
  }

  lemma SightsMean(q: Query, epoch: int, first: seq<Step>, later: seq<Step>)
    requires WholeProject(q) && OnTime(epoch, first + later)
    ensures var (k, k') := (Timeline(epoch, first), Timeline(epoch, first + later));
            && (Reads.NoneHidden(q, Reads.SeenIn(first, q), Reads.SightsOf(first, later)) <==> NoneHidden(k, k', q))
            && (Reads.NoneRepeated(q, Reads.SeenIn(first, q), Reads.SightsOf(first, later)) <==> NoneTwice(k, k'.past.arrived, q))
  {
    var (k, k', sights) := (Timeline(epoch, first), Timeline(epoch, first + later), Reads.SightsOf(first, later));
    var seen := Reads.SeenIn(first, q);
    ReadsInOrder(epoch, first, later);
    RunKeepsInv(epoch, first);
    SameRun(epoch, first);
    SameRun(epoch, first + later);
    SightsPlaced(epoch, first, later);
    assert seen == Starts(SummaryPoints(k.db, q));
    assert forall s :: s in sights ==> s.audit in k'.past.arrived;
    hide Run, Timeline, Inv, HiddenAt, TwiceAt, AuditMatches, SightPlaced, Reads.SightsOf, Reads.SeenIn, SummaryPoints, Starts, WholeProject, Arrived;
    forall a | a in k'.past.arrived ensures exists s :: s in sights && s.audit == a { ArrivedIsSighted(first, later, a); }
    forall s | s in sights && AuditMatches(q, s.audit)
      ensures Reads.Hidden(q, seen, s) <==> HiddenAt(k, k', s.audit)
      ensures Reads.Repeated(q, seen, s) <==> TwiceAt(k, s.audit)
    {
      SightMeans(q, epoch, k, k', s);
    }
    assert forall s :: Reads.Hidden(q, seen, s) || Reads.Repeated(q, seen, s) ==> AuditMatches(q, s.audit);
    hide Reads.Hidden, Reads.Repeated;
  }

  /** Tiering at the clock's instants, the job running between the two reads or
      not: when no roll-up waits for its DELETE, a reader adds up what arrived in a
      day-aligned range exactly when no request of the range is hidden. */
  lemma TieringIsInvisibleIff(epoch: int, first: seq<Step>, later: seq<Step>, project: string, from: int, to: int)
    requires OnTime(epoch, first + later) && from % DAY == 0 && to % DAY == 0 && project != ""
    requires NoneTwice(Timeline(epoch, first), Timeline(epoch, first + later).past.arrived, ProjectQuery(project, from, to))
    ensures var q := ProjectQuery(project, from, to);
            Reads.HistoryOf(first, later, q) == Shown(Reads.ArrivedIn(first, later, q)) <==>
            NoneHidden(Timeline(epoch, first), Timeline(epoch, first + later), q)
  {
    var q := ProjectQuery(project, from, to);
    assert WholeProject(q) && Aligned(q) && q.project != "";
    hide *;
    SightsMean(q, epoch, first, later);
    Reads.ExactIffNothingHidden(first, later, q);
  }

  /** And when no request is hidden, exactly when none waits behind both rows. */
  lemma ExactIffNoneTwice(epoch: int, first: seq<Step>, later: seq<Step>, project: string, from: int, to: int)
    requires OnTime(epoch, first + later) && from % DAY == 0 && to % DAY == 0 && project != ""
    requires NoneHidden(Timeline(epoch, first), Timeline(epoch, first + later), ProjectQuery(project, from, to))
    ensures var q := ProjectQuery(project, from, to);
            Reads.HistoryOf(first, later, q) == Shown(Reads.ArrivedIn(first, later, q)) <==>
            NoneTwice(Timeline(epoch, first), Timeline(epoch, first + later).past.arrived, q)
  {
    var q := ProjectQuery(project, from, to);
    assert WholeProject(q) && Aligned(q) && q.project != "";
    hide *;
    SightsMean(q, epoch, first, later);
    Reads.ExactIffNothingRepeated(first, later, q);
  }

  // ----- cutoffs on period boundaries

  lemma AlignedShadow(epoch: int, k: Timed, a: Audit)
    requires MarksMatch(epoch, k.marks, k.past) && OnBoundaries(k.past) && k.marks.hoursIn <= a.timestamp
    ensures !Shadowed(k, a)
  {
    if Shadowed(k, a) {
      var b :| b in k.past.arrived && Tierable(b) && b.project == a.project &&
               TruncHour(b.timestamp) == TruncHour(a.timestamp) && b.timestamp < k.marks.hoursIn;
      if k.marks.hoursIn in k.past.raw { SameHourSameSide(b.timestamp, a.timestamp, k.marks.hoursIn); }
    }
  }

  /** On boundaries the hidden requests are those deleted between the two reads
      whose hour the first read could not have. */
  lemma AlignedHiddenIff(epoch: int, first: Timed, second: Timed, a: Audit)
    requires MarksMatch(epoch, first.marks, first.past) && OnBoundaries(first.past)
    ensures HiddenAt(first, second, a) <==> first.marks.hoursIn <= a.timestamp < second.marks.rawOut
  {
    AlignedNeverCuts(first.past, a);
    if first.marks.hoursIn <= a.timestamp { AlignedShadow(epoch, first, a); }
    hide MarksMatch, OnBoundaries, HourCut, DayCut, Shadowed, TruncHour;
  }

  /** No request of the range was deleted between the reads with its hour not yet
      inserted at the first. */
  predicate NoneBetween(first: Timed, second: Timed, q: Query) {
    forall a :: a in second.past.arrived && AuditMatches(q, a) ==>
                  !(first.marks.hoursIn <= a.timestamp < second.marks.rawOut)
  }

  lemma AlignedHistoryIff(epoch: int, first: seq<Step>, later: seq<Step>, project: string, from: int, to: int)
    requires OnTime(epoch, first + later) && from % DAY == 0 && to % DAY == 0 && project != ""
    requires OnBoundaries(Timeline(epoch, first).past)
    requires NoneTwice(Timeline(epoch, first), Timeline(epoch, first + later).past.arrived, ProjectQuery(project, from, to))
    ensures var q := ProjectQuery(project, from, to);
            Reads.HistoryOf(first, later, q) == Shown(Reads.ArrivedIn(first, later, q)) <==>
            NoneBetween(Timeline(epoch, first), Timeline(epoch, first + later), q)
  {
    var (q, k, k') := (ProjectQuery(project, from, to), Timeline(epoch, first), Timeline(epoch, first + later));
    ReadsInOrder(epoch, first, later);
    RunKeepsInv(epoch, first);
    assert MarksMatch(epoch, k.marks, k.past);
    hide Inv, MarksMatch, Timeline, OnTime, Later, HiddenAt, NoneTwice, OnBoundaries, AuditMatches, Reads.HistoryOf, Reads.ArrivedIn;
    TieringIsInvisibleIff(epoch, first, later, project, from, to);
    forall a ensures HiddenAt(k, k', a) <==> k.marks.hoursIn <= a.timestamp < k'.marks.rawOut {
      AlignedHiddenIff(epoch, k, k', a);
    }
  }

  /** With no DELETE of hours outstanding at the first read nothing is counted twice. */
  lemma SettledIsNotTwice(first: Timed, arrived: seq<Audit>, q: Query)
    requires first.marks.hoursOut == first.marks.daysIn
    ensures NoneTwice(first, arrived, q)
  {
  }

  lemma NothingBetween(epoch: int, k: Timed, q: Query)
    requires MarksMatch(epoch, k.marks, k.past)
    ensures NoneBetween(k, k, q)
  {
    hide AuditMatches;
  }

  /** Both reads at one moment, cutoffs on period boundaries, and no DELETE of hours
      outstanding: the history is what arrived. */
  lemma SnapshotIsExact(epoch: int, steps: seq<Step>, project: string, from: int, to: int)
    requires OnTime(epoch, steps) && from % DAY == 0 && to % DAY == 0 && project != ""
    requires OnBoundaries(Timeline(epoch, steps).past)
    requires Timeline(epoch, steps).marks.hoursOut == Timeline(epoch, steps).marks.daysIn
    ensures var q := ProjectQuery(project, from, to);
            Reads.HistoryOf(steps, [], q) == Shown(Reads.ArrivedIn(steps, [], q))
  {
    var (q, k) := (ProjectQuery(project, from, to), Timeline(epoch, steps));
    assert steps + [] == steps;
    RunKeepsInv(epoch, steps);
    assert MarksMatch(epoch, k.marks, k.past);
    hide *;
    SettledIsNotTwice(k, k.past.arrived, q);
    NothingBetween(epoch, k, q);
    AlignedHistoryIff(epoch, steps, [], project, from, to);
  }

  // ----- a job that runs between the two reads

  /** A request of the first hour; the summaries are read, the hour is inserted and
      its rows deleted, the raw rows are read: the history is empty. */
  lemma ReadAroundTheJob(a: Audit)
    requires Tierable(a) && 0 <= a.timestamp < HOUR
    ensures var (first, later) := ([Arrive(a)], [DoInsertHours(HOUR), DoDeleteAudits(HOUR)]);
            var q := ProjectQuery(a.project.value, 0, DAY);
            OnTime(0, first + later) && Reads.HistoryOf(first, later, q) != Shown(Reads.ArrivedIn(first, later, q))
  {
    var (first, later) := ([Arrive(a)], [DoInsertHours(HOUR), DoDeleteAudits(HOUR)]);
    var q := ProjectQuery(a.project.value, 0, DAY);
    MarksAround(a);
    var (k, k') := (Timeline(0, first), Timeline(0, first + later));
    hide Timeline, OnTime, Reads.HistoryOf, Reads.ArrivedIn;
    DeletedBetween(k, k', a);
    hide *;
    SettledIsNotTwice(k, k'.past.arrived, q);
    AlignedHistoryIff(0, first, later, a.project.value, 0, DAY);
  }

  lemma DeletedBetween(first: Timed, second: Timed, a: Audit)
    requires Tierable(a) && 0 <= a.timestamp < HOUR && a in second.past.arrived
    requires first.marks == Marks(0, 0, 0, 0) && first.past == Past([a], {}, {}) && second.marks.rawOut == HOUR
    ensures OnBoundaries(first.past) && !NoneBetween(first, second, ProjectQuery(a.project.value, 0, DAY))
  {
    assert AuditMatches(ProjectQuery(a.project.value, 0, DAY), a);
    hide AuditMatches, Tierable;
  }

  lemma MarksAround(a: Audit)
    requires Tierable(a) && 0 <= a.timestamp < HOUR
    ensures var (first, all) := ([Arrive(a)], [Arrive(a)] + [DoInsertHours(HOUR), DoDeleteAudits(HOUR)]);
            && OnTime(0, all)
            && Timeline(0, first).marks == Marks(0, 0, 0, 0) && Timeline(0, first).past == Past([a], {}, {})
            && Timeline(0, all).marks.rawOut == HOUR && a in Timeline(0, all).past.arrived
  {
    hide Execute, Tierable;
    var (first, all) := ([Arrive(a)], [Arrive(a)] + [DoInsertHours(HOUR), DoDeleteAudits(HOUR)]);
    var two := [Arrive(a), DoInsertHours(HOUR)];
    assert first[..0] == [];
    assert Timeline(0, []) == Initial(0);
    assert Timeline(0, first) == Tick(Initial(0), Arrive(a));
    assert two[..1] == first && all[..2] == two;
    assert Timeline(0, two) == Tick(Timeline(0, first), DoInsertHours(HOUR));
    assert Timeline(0, all) == Tick(Timeline(0, two), DoDeleteAudits(HOUR));
    assert OnTime(0, []) && OnTime(0, first) && OnTime(0, two);
  }
}
