/** The tiering repository, its in-place sort of history points, and the nightly
    job that drives the two stages. */
module TieringRepository {
  import opened Rows
  import opened Tiers
  import opened TieringHistory
  import Clock = TieringClock
  import Columns = TieringColumns
  import Laws = TieringLaws
  import Points = TieringPoints
  import Runs = TieringRun

  ghost predicate SortedByStart(s: seq<HistoryPoint>) {
    forall i, j :: 0 <= i < j < |s| ==> s[i].slot.start <= s[j].slot.start
  }

  function StartingAt(t: int): HistoryPoint -> bool {
    (p: HistoryPoint) => p.slot.start == t
  }

  /** `s` is `r` with points of different starts reordered: each start keeps its
      points, in their order. */
  ghost predicate StableReorder(r: seq<HistoryPoint>, s: seq<HistoryPoint>) {
    && multiset(r) == multiset(s)
    && forall t :: Filter(StartingAt(t), r) == Filter(StartingAt(t), s)
  }

  lemma SwapNeighbours(x: seq<HistoryPoint>, a: HistoryPoint, b: HistoryPoint, y: seq<HistoryPoint>)
    requires a.slot.start != b.slot.start
    ensures StableReorder(x + [a, b] + y, x + [b, a] + y)
  {
    forall t ensures Filter(StartingAt(t), x + [a, b] + y) == Filter(StartingAt(t), x + [b, a] + y) {
      FilterAround(StartingAt(t), x, a, b, y);
      FilterAround(StartingAt(t), x, b, a, y);
    }
  }

  lemma FilterAround(p: HistoryPoint -> bool, x: seq<HistoryPoint>, a: HistoryPoint, b: HistoryPoint, y: seq<HistoryPoint>)
    ensures Filter(p, x + [a, b] + y) ==
            Filter(p, x) + (if p(a) then [a] else []) + (if p(b) then [b] else []) + Filter(p, y)
  {
    FilterAppend(p, x + [a, b], y);
    assert x + [a, b] == x + [a] + [b];
    FilterLast(p, x + [a], b);
    FilterLast(p, x, a);
  }

  function Swapped(s: seq<HistoryPoint>, j: int): seq<HistoryPoint>
    requires 0 < j < |s|
  {
    s[j := s[j - 1]][j - 1 := s[j]]
  }

  /** Positions 0..i are in order, except that position j may come too late. */
  ghost predicate OrderedExcept(s: seq<HistoryPoint>, i: int, j: int)
    requires 0 <= j <= i < |s|
  {
    forall m, n :: 0 <= m < n <= i && n != j ==> s[m].slot.start <= s[n].slot.start
  }

  lemma SwapKeepsOrder(s: seq<HistoryPoint>, i: int, j: int)
    requires 0 < j <= i < |s| && OrderedExcept(s, i, j) && s[j].slot.start < s[j - 1].slot.start
    ensures OrderedExcept(Swapped(s, j), i, j - 1)
  {
  }

  lemma SwapInSequence(s: seq<HistoryPoint>, j: int)
    requires 0 < j < |s| && s[j].slot.start != s[j - 1].slot.start
    ensures StableReorder(s, Swapped(s, j))
  {
    var x, y := s[..j - 1], s[j + 1..];
    assert s == x + [s[j - 1], s[j]] + y;
    assert Swapped(s, j) == x + [s[j], s[j - 1]] + y;
    SwapNeighbours(x, s[j - 1], s[j], y);
  }

  lemma ReorderTransitive(r: seq<HistoryPoint>, s: seq<HistoryPoint>, t: seq<HistoryPoint>)
    requires StableReorder(r, s) && StableReorder(s, t)
    ensures StableReorder(r, t)
  {
  }

  /** One exchange of the sort, on neighbours that are out of order. */
  method SwapDown(pts: array<HistoryPoint>, j: int, ghost was: seq<HistoryPoint>)
    requires 0 < j < pts.Length && pts[j].slot.start < pts[j - 1].slot.start
    requires StableReorder(was, pts[..])
    modifies pts
    ensures pts[..] == Swapped(old(pts[..]), j)
    ensures StableReorder(was, pts[..])
  {
    ghost var before := pts[..];
    SwapInSequence(before, j);
    pts[j], pts[j - 1] := pts[j - 1], pts[j];
    assert pts[..] == Swapped(before, j);
    ReorderTransitive(was, before, pts[..]);
  }

  method SortHistoryPoints(pts: array<HistoryPoint>)
    modifies pts
    ensures SortedByStart(pts[..])
    ensures StableReorder(old(pts[..]), pts[..])
  {
    ghost var was := pts[..];
    var i := 1;
    while i < pts.Length
      invariant 1 <= i && (i <= pts.Length || pts.Length == 0)
      invariant pts.Length > 0 ==> forall m, n :: 0 <= m < n < i ==> pts[m].slot.start <= pts[n].slot.start
      invariant StableReorder(was, pts[..])
    {
      var j := i;
      while j > 0 && pts[j].slot.start < pts[j - 1].slot.start
        invariant 0 <= j <= i < pts.Length
        invariant OrderedExcept(pts[..], i, j)
        invariant StableReorder(was, pts[..])
      {
        SwapKeepsOrder(pts[..], i, j);
        SwapDown(pts, j, was);
        j := j - 1;
      }
      i := i + 1;
    }
  }

  lemma {:induction false} SumReordered(w: HistoryPoint -> Totals, r: seq<HistoryPoint>, s: seq<HistoryPoint>)
    requires multiset(r) == multiset(s)
    ensures Sum(w, r) == Sum(w, s)
  {
    if |r| == 0 {
      assert |multiset(s)| == |s|;
    } else {
      var front, last := r[..|r| - 1], r[|r| - 1];
      assert r == front + [last];
      assert last in multiset(s);
      var i :| 0 <= i < |s| && s[i] == last;
      var rest := WithoutAt(w, s, i);
      assert multiset(front) == multiset(r) - multiset{last};
      SumReordered(w, front, rest);
    }
  }

  lemma WithoutAt(w: HistoryPoint -> Totals, s: seq<HistoryPoint>, i: int) returns (rest: seq<HistoryPoint>)
    requires 0 <= i < |s|
    ensures multiset(rest) == multiset(s) - multiset{s[i]}
    ensures Sum(w, s) == Plus(Sum(w, rest), w(s[i]))
  {
    var x, y := s[..i], s[i + 1..];
    rest := x + y;
    assert s == x + [s[i]] + y;
    SumAppend(w, x + [s[i]], y);
    SumLast(w, x, s[i]);
    SumAppend(w, x, y);
    PlusMoves(Sum(w, x), Sum(w, y), w(s[i]));
  }

  /** What becomes of a statement: an error may be reported although it was
      committed. */
  datatype Effect = Works | Breaks | CommitsThenBreaks

  /** What becomes of the two statements of a stage. */
  datatype Outcome = Outcome(insert: Effect, delete: Effect)

  predicate Succeeds(o: Outcome) { o.insert.Works? && o.delete.Works? }

  function AfterHours(db: Db, cutoff: int, o: Outcome): Db {
    if o.insert.Breaks? then db
    else if o.insert.CommitsThenBreaks? || o.delete.Breaks? then InsertHours(db, cutoff)
    else HourStage(db, cutoff)
  }

  function AfterDays(db: Db, cutoff: int, o: Outcome): Db {
    if o.insert.Breaks? then db
    else if o.insert.CommitsThenBreaks? || o.delete.Breaks? then InsertDays(db, cutoff)
    else DayStage(db, cutoff)
  }

  /** What a stage leaves, row by row: nothing changes when its INSERT fails, and no
      row is deleted unless the INSERT succeeded and the DELETE was committed. */
  ghost predicate HoursDone(before: Db, after: Db, cutoff: int, o: Outcome) {
    var stored := Db(before.audits, after.summaries);
    && (if o.insert.Breaks? then stored == before else Columns.HoursStored(before, stored, cutoff))
    && if o.insert.Works? && !o.delete.Breaks? then Columns.AuditsDeleted(stored, after, cutoff) else after == stored
  }

  ghost predicate DaysDone(before: Db, after: Db, cutoff: int, o: Outcome) {
    if o.insert.Breaks? then after == before
    else if o.insert.Works? && !o.delete.Breaks? then
      exists stored :: Columns.DaysStored(before, stored, cutoff) && Columns.HoursDeleted(stored, after, cutoff)
    else Columns.DaysStored(before, after, cutoff)
  }

  lemma HoursAreDone(db: Db, cutoff: int, o: Outcome)
    ensures HoursDone(db, AfterHours(db, cutoff, o), cutoff, o)
  {
    Columns.InsertHoursMeans(db, cutoff);
    Columns.DeletesMean(InsertHours(db, cutoff), cutoff);
    assert InsertHours(db, cutoff).audits == db.audits;
    assert DeleteAudits(InsertHours(db, cutoff), cutoff).summaries == InsertHours(db, cutoff).summaries;
    hide Columns.HoursStored, Columns.AuditsDeleted, InsertHours, DeleteAudits;
  }

  lemma DaysAreDone(db: Db, cutoff: int, o: Outcome)
    requires Valid(db)
    ensures DaysDone(db, AfterDays(db, cutoff, o), cutoff, o)
  {
    Columns.InsertDaysMeans(db, cutoff);
    Columns.DeletesMean(InsertDays(db, cutoff), cutoff);
    hide Columns.DaysStored, Columns.HoursDeleted, InsertDays, DeleteHours;
  }

  /** The two tables and the operations the rest of the system calls.  Whether a
      statement fails is the database's choice, so it is a parameter. */
  class Repository {
    var audits: seq<Audit>
    var summaries: seq<Summary>

    function Tables(): Db
      reads this
    {
      Db(audits, summaries)
    }

    constructor ()
      ensures Tables() == Db([], [])
    {
      audits, summaries := [], [];
    }

    method AggregateRawToHourly(cutoff: int, outcome: Outcome) returns (processed: nat, ok: bool)
      modifies this
      ensures ok == Succeeds(outcome)
      ensures Tables() == AfterHours(old(Tables()), cutoff, outcome)
      ensures HoursDone(old(Tables()), Tables(), cutoff, outcome)
      ensures processed == if ok then |Filter(OldAudit(cutoff), old(audits))| else 0
      ensures processed == if ok then |old(audits)| - |audits| else 0
    {
      HoursAreDone(Tables(), cutoff, outcome);
      hide HoursDone, Filter;
      if outcome.insert.Breaks? { return 0, false; }
      ghost var was := Tables();
      summaries := InsertHours(Tables(), cutoff).summaries;
      if outcome.insert.CommitsThenBreaks? || outcome.delete.Breaks? { return 0, false; }
      var stored := |audits|;
      audits := DeleteAudits(Tables(), cutoff).audits;
      if outcome.delete.CommitsThenBreaks? { return 0, false; }
      Laws.DeletedCounts(was, cutoff);
      return stored - |audits|, true;
    }

    method AggregateHourlyToDaily(cutoff: int, outcome: Outcome) returns (processed: nat, ok: bool)
      modifies this
      ensures ok == Succeeds(outcome)
      ensures Tables() == AfterDays(old(Tables()), cutoff, outcome)
      ensures Valid(old(Tables())) ==> DaysDone(old(Tables()), Tables(), cutoff, outcome)
      ensures processed == if ok then |Filter(OldHour(cutoff), old(summaries))| else 0
    {
      if Valid(Tables()) { DaysAreDone(Tables(), cutoff, outcome); }
      hide DaysDone, Filter, Valid;
      if outcome.insert.Breaks? { return 0, false; }
      ghost var was := Tables();
      summaries := InsertDays(Tables(), cutoff).summaries;
      if outcome.insert.CommitsThenBreaks? || outcome.delete.Breaks? { return 0, false; }
      var stored := |summaries|;
      Laws.DeletedCounts(Tables(), cutoff);
      Laws.OldHoursUntouched(was, cutoff);
      summaries := DeleteHours(Tables(), cutoff).summaries;
      if outcome.delete.CommitsThenBreaks? { return 0, false; }
      return stored - |summaries|, true;
    }

    /** The history of a project, in ascending order of start, as a stable
        reordering of the merged points: what a reader adds up is unchanged.
        `later` are the tables when the raw rows are read; either read may fail. */
    method GetHistory(project: string, from: int, to: int, later: Db, summariesOk: bool, auditsOk: bool)
      returns (points: seq<HistoryPoint>, ok: bool)
      ensures ok == (summariesOk && auditsOk)
      ensures !ok ==> points == []
      ensures ok ==> Points.HistoryShown(points, summaries, later.audits, project, from, to)
      ensures ok ==> SortedByStart(points) && StableReorder(Merged(Tables(), later, ProjectQuery(project, from, to)), points)
      ensures ok ==> Sum(PointTotals, points) == HistoryTotals(Tables(), later, ProjectQuery(project, from, to))
      ensures forall i, j :: 0 <= i < j < |points| ==> points[i].slot != points[j].slot
    {
      if !summariesOk { return [], false; }
      var stored := SummaryPoints(Tables(), ProjectQuery(project, from, to));
      if !auditsOk { return [], false; }
      var raw := AuditPoints(later, ProjectQuery(project, from, to));
      var merged := Merge(stored, raw);
      var pts := new HistoryPoint[|merged|](k requires 0 <= k < |merged| => merged[k]);
      assert pts[..] == merged;
      SortHistoryPoints(pts);
      points, ok := pts[..], true;
      HistoryFacts(Tables(), later, ProjectQuery(project, from, to), points);
      Points.MergedIsShown(Tables(), later, project, from, to);
      Points.ShownReordered(merged, points, summaries, later.audits, project, from, to);
    }
  }

  lemma HistoryFacts(first: Db, second: Db, q: Query, points: seq<HistoryPoint>)
    requires multiset(Merged(first, second, q)) == multiset(points)
    ensures Sum(PointTotals, points) == HistoryTotals(first, second, q)
    ensures forall i, j :: 0 <= i < j < |points| ==> points[i].slot != points[j].slot
  {
    SumReordered(PointTotals, Merged(first, second, q), points);
    MergedSlotsDistinct(first, second, q);
    DistinctReordered(Merged(first, second, q), points);
  }

  /** The merge loops: remember the starts of the summaries, then add the raw
      hours whose start was not seen. */
  method Merge(stored: seq<HistoryPoint>, raw: seq<HistoryPoint>) returns (merged: seq<HistoryPoint>)
    ensures merged == stored + Filter(Unseen(Starts(stored)), raw)
  {
    var seen: set<int> := {};
    merged := [];
    for i := 0 to |stored|
      invariant merged == stored[..i]
      invariant seen == Starts(stored[..i])
    {
      seen := seen + {stored[i].slot.start};
      merged := merged + [stored[i]];
      assert stored[..i + 1] == stored[..i] + [stored[i]];
    }
    assert stored[..|stored|] == stored;
    for i := 0 to |raw|
      invariant merged == stored + Filter(Unseen(seen), raw[..i])
    {
      assert raw[..i + 1] == raw[..i] + [raw[i]];
      FilterLast(Unseen(seen), raw[..i], raw[i]);
      if raw[i].slot.start !in seen {
        merged := merged + [raw[i]];
      }
    }
    assert raw[..|raw|] == raw;
  }

  lemma {:induction false} DistinctOnce(r: seq<HistoryPoint>, p: HistoryPoint)
    requires forall i, j :: 0 <= i < j < |r| ==> r[i].slot != r[j].slot
    ensures multiset(r)[p] <= 1
    ensures p !in r ==> multiset(r)[p] == 0
  {
    if |r| > 0 {
      var front, last := r[..|r| - 1], r[|r| - 1];
      assert r == front + [last];
      DistinctOnce(front, p);
    }
  }

  lemma TwiceIn(s: seq<HistoryPoint>, i: int, j: int)
    requires 0 <= i < j < |s| && s[i] == s[j]
    ensures multiset(s)[s[i]] >= 2
  {
    assert s == s[..j] + [s[j]] + s[j + 1..];
    assert s[i] in s[..j] by { assert s[..j][i] == s[i]; }
  }

  lemma DistinctReordered(r: seq<HistoryPoint>, s: seq<HistoryPoint>)
    requires multiset(r) == multiset(s)
    requires forall i, j :: 0 <= i < j < |r| ==> r[i].slot != r[j].slot
    ensures forall i, j :: 0 <= i < j < |s| ==> s[i].slot != s[j].slot
  {
    forall i, j | 0 <= i < j < |s| ensures s[i].slot != s[j].slot {
      assert s[i] in multiset(r) && s[j] in multiset(r);
      var m :| 0 <= m < |r| && r[m] == s[i];
      var n :| 0 <= n < |r| && r[n] == s[j];
      if m == n {
        TwiceIn(s, i, j);
        DistinctOnce(r, s[i]);
      }
    }
  }

  /** One nightly cycle: raw rows to hours, then hours to days. */
  class Job {
    const repo: Repository
    const rawDays: nat
    const hourlyDays: nat

    constructor (repo: Repository, rawDays: nat, hourlyDays: nat)
      ensures this.repo == repo && this.rawDays == rawDays && this.hourlyDays == hourlyDays
    {
      this.repo, this.rawDays, this.hourlyDays := repo, rawDays, hourlyDays;
    }

    function RawCutoff(now: int): int { now - rawDays * DAY }

    function HourlyCutoff(now: int): int { now - hourlyDays * DAY }

    /** A request is older than the raw cutoff when more than rawDays days of
        86_400_000_000 microseconds have passed since; an hour likewise. */
    lemma CutoffsAreDaysAgo(now: int, t: int)
      ensures t < RawCutoff(now) <==> now - t > 86_400_000_000 * rawDays
      ensures t < HourlyCutoff(now) <==> now - t > 86_400_000_000 * hourlyDays
    {
    }

    /** A failed first stage does not stop the second; cancellation does. */
    method Run(rawNow: int, hourlyNow: int, raw: Outcome, hourly: Outcome, cancelled: bool)
      modifies repo
      ensures var hours := AfterHours(old(repo.Tables()), RawCutoff(rawNow), raw);
              repo.Tables() == if cancelled then hours else AfterDays(hours, HourlyCutoff(hourlyNow), hourly)
    {
      var _, _ := repo.AggregateRawToHourly(RawCutoff(rawNow), raw);
      if cancelled { return; }
      var _, _ := repo.AggregateHourlyToDaily(HourlyCutoff(hourlyNow), hourly);
    }
  }

  // ----- cycles as runs

  /** The statements of a stage that took effect. */
  function StageSteps(insert: Runs.Step, delete: Runs.Step, o: Outcome): seq<Runs.Step> {
    if o.insert.Breaks? then []
    else if o.insert.CommitsThenBreaks? || o.delete.Breaks? then [insert]
    else [insert, delete]
  }

  function HourSteps(cutoff: int, o: Outcome): seq<Runs.Step> {
    StageSteps(Runs.DoInsertHours(cutoff), Runs.DoDeleteAudits(cutoff), o)
  }

  function DaySteps(cutoff: int, o: Outcome): seq<Runs.Step> {
    StageSteps(Runs.DoInsertDays(cutoff), Runs.DoDeleteHours(cutoff), o)
  }

  lemma RunStep(steps: seq<Runs.Step>, step: Runs.Step)
    ensures Runs.Run(steps + [step]).db == Runs.Execute(Runs.Run(steps).db, step)
  {
    assert (steps + [step])[..|steps|] == steps;
    hide Runs.Execute, Runs.Move;
  }

  lemma RunStage(steps: seq<Runs.Step>, insert: Runs.Step, delete: Runs.Step, o: Outcome)
    ensures var (db, inserted) := (Runs.Run(steps).db, Runs.Execute(Runs.Run(steps).db, insert));
            Runs.Run(steps + StageSteps(insert, delete, o)).db ==
            if o.insert.Breaks? then db
            else if o.insert.CommitsThenBreaks? || o.delete.Breaks? then inserted
            else Runs.Execute(inserted, delete)
  {
    hide Runs.Run, Runs.Execute;
    assert steps + [] == steps;
    RunStep(steps, insert);
    RunStep(steps + [insert], delete);
    assert steps + [insert] + [delete] == steps + [insert, delete];
  }

  /** Whatever becomes of its statements, what a cycle of the job leaves is what the
      run of those that took effect leaves. */
  lemma CycleIsARun(steps: seq<Runs.Step>, rawCutoff: int, hourlyCutoff: int, raw: Outcome, hourly: Outcome)
    ensures var hours := AfterHours(Runs.Run(steps).db, rawCutoff, raw);
            && Runs.Run(steps + HourSteps(rawCutoff, raw)).db == hours
            && Runs.Run(steps + HourSteps(rawCutoff, raw) + DaySteps(hourlyCutoff, hourly)).db ==
               AfterDays(hours, hourlyCutoff, hourly)
  {
    RunStage(steps, Runs.DoInsertHours(rawCutoff), Runs.DoDeleteAudits(rawCutoff), raw);
    RunStage(steps + HourSteps(rawCutoff, raw), Runs.DoInsertDays(hourlyCutoff), Runs.DoDeleteHours(hourlyCutoff), hourly);
    hide Runs.Run;
  }

  lemma Extend(epoch: int, steps: seq<Runs.Step>, step: Runs.Step)
    requires Clock.OnTime(epoch, steps) && Clock.Timely(Clock.Timeline(epoch, steps).marks, step)
    ensures Clock.OnTime(epoch, steps + [step])
    ensures Clock.Timeline(epoch, steps + [step]) == Clock.Tick(Clock.Timeline(epoch, steps), step)
  {
    assert (steps + [step])[..|steps|] == steps;
  }

  lemma ExtendStage(epoch: int, steps: seq<Runs.Step>, insert: Runs.Step, delete: Runs.Step, o: Outcome)
    requires Clock.OnTime(epoch, steps) && Clock.Timely(Clock.Timeline(epoch, steps).marks, insert)
    requires Clock.Timely(Clock.Tick(Clock.Timeline(epoch, steps), insert).marks, delete)
    ensures Clock.OnTime(epoch, steps + StageSteps(insert, delete, o))
    ensures Succeeds(o) ==> Clock.Timeline(epoch, steps + StageSteps(insert, delete, o)) ==
                            Clock.Tick(Clock.Tick(Clock.Timeline(epoch, steps), insert), delete)
  {
    hide Clock.Tick, Clock.Timely, Clock.Timeline, Clock.OnTime;
    assert steps + [] == steps;
    Extend(epoch, steps, insert);
    Extend(epoch, steps + [insert], delete);
    assert steps + [insert] + [delete] == steps + [insert, delete];
  }

  /** And it is one of the timely runs when the hours the second stage rolls up were
      all deleted from the raw table by the end of the first. */
  lemma CycleIsOnTime(epoch: int, steps: seq<Runs.Step>, rawCutoff: int, hourlyCutoff: int, raw: Outcome, hourly: Outcome)
    requires Clock.OnTime(epoch, steps)
    requires Clock.HourEnd(hourlyCutoff) <= Clock.Timeline(epoch, steps + HourSteps(rawCutoff, raw)).marks.rawOut
    ensures Clock.OnTime(epoch, steps + HourSteps(rawCutoff, raw))
    ensures Clock.OnTime(epoch, steps + HourSteps(rawCutoff, raw) + DaySteps(hourlyCutoff, hourly))
  {
    var hours := steps + HourSteps(rawCutoff, raw);
    hide Clock.Timeline, Clock.OnTime, Clock.HourEnd, Runs.Execute;
    ExtendStage(epoch, steps, Runs.DoInsertHours(rawCutoff), Runs.DoDeleteAudits(rawCutoff), raw);
    Clock.RunKeepsInv(epoch, hours);
    assert Clock.MarksMatch(epoch, Clock.Timeline(epoch, hours).marks, Clock.Timeline(epoch, hours).past) by {
      hide Clock.MarksMatch;
    }
    ExtendStage(epoch, hours, Runs.DoInsertDays(hourlyCutoff), Runs.DoDeleteHours(hourlyCutoff), hourly);
  }

  lemma CycleMarks(k: Clock.Timed, c: int, d: int)
    requires k.marks.rawOut <= k.marks.hoursIn <= c && k.marks.hoursOut <= k.marks.daysIn <= d && Clock.HourEnd(d) <= c
    ensures var k1 := Clock.Tick(k, Runs.DoInsertHours(c));
            var k2 := Clock.Tick(k1, Runs.DoDeleteAudits(c));
            var k3 := Clock.Tick(k2, Runs.DoInsertDays(d));
            && Clock.Timely(k.marks, Runs.DoInsertHours(c)) && Clock.Timely(k1.marks, Runs.DoDeleteAudits(c))
            && Clock.Timely(k2.marks, Runs.DoInsertDays(d)) && Clock.Timely(k3.marks, Runs.DoDeleteHours(d))
            && Clock.Settled(Clock.Tick(k3, Runs.DoDeleteHours(d)).marks)
  {
    hide Runs.Execute, Clock.HourEnd;
  }

  /** A cycle in which all goes well, whose cutoffs follow the last ones, the hourly
      an hour or more older than the raw: no INSERT is left waiting. */
  lemma CompleteCycleSettles(epoch: int, steps: seq<Runs.Step>, rawCutoff: int, hourlyCutoff: int, done: Outcome)
    requires Clock.OnTime(epoch, steps) && Succeeds(done) && hourlyCutoff + HOUR <= rawCutoff
    requires Clock.Timeline(epoch, steps).marks.hoursIn <= rawCutoff
    requires Clock.Timeline(epoch, steps).marks.daysIn <= hourlyCutoff
    ensures var all := steps + HourSteps(rawCutoff, done) + DaySteps(hourlyCutoff, done);
            Clock.OnTime(epoch, all) && Clock.Settled(Clock.Timeline(epoch, all).marks)
  {
    Clock.RunKeepsInv(epoch, steps);
    var (k, hours) := (Clock.Timeline(epoch, steps), steps + HourSteps(rawCutoff, done));
    assert k.marks.rawOut <= k.marks.hoursIn && k.marks.hoursOut <= k.marks.daysIn by {
      assert Clock.MarksMatch(epoch, k.marks, k.past);
    }
    hide *;
    HourEndBefore(hourlyCutoff, rawCutoff);
    CycleMarks(k, rawCutoff, hourlyCutoff);
    StagesAre(rawCutoff, hourlyCutoff, done);
    ExtendStage(epoch, steps, Runs.DoInsertHours(rawCutoff), Runs.DoDeleteAudits(rawCutoff), done);
    ExtendStage(epoch, hours, Runs.DoInsertDays(hourlyCutoff), Runs.DoDeleteHours(hourlyCutoff), done);
  }

  lemma StagesAre(rawCutoff: int, hourlyCutoff: int, o: Outcome)
    ensures HourSteps(rawCutoff, o) == StageSteps(Runs.DoInsertHours(rawCutoff), Runs.DoDeleteAudits(rawCutoff), o)
    ensures DaySteps(hourlyCutoff, o) == StageSteps(Runs.DoInsertDays(hourlyCutoff), Runs.DoDeleteHours(hourlyCutoff), o)
  {
  }

  lemma HourEndBefore(d: int, c: int)
    requires d + HOUR <= c
    ensures Clock.HourEnd(d) <= c
  {
    Clock.HourSpan(d + HOUR - 1);
  }

  // ----- the schedule

  /** `next` is the first instant after `now` at the hour, of any day. */
  ghost predicate FirstAt(now: int, hour: int, next: int) {
    now < next && next % DAY == hour * HOUR % DAY && forall t :: now < t < next ==> t % DAY != hour * HOUR % DAY
  }

  /** The hour of the current day, or a day later.  An hour outside 0 to 23 is
      carried into another day.  The result is the first instant at the hour exactly
      when the hour lies at most a day ahead of the time of day, and less than a day
      behind it. */
  method NextRun(now: int, hour: int) returns (next: int)
    ensures FirstAt(now, hour, next) <==> hour * HOUR - DAY <= now % DAY < hour * HOUR + DAY
    ensures 0 <= hour < 24 ==> FirstAt(now, hour, next) && next <= now + DAY
    ensures next == TruncDay(now) + hour * HOUR + if now % DAY < hour * HOUR then 0 else DAY
  {
    next := TruncDay(now) + hour * HOUR;
    if !(next > now) {
      next := next + DAY;
    }
    SameHourOfDay(TruncDay(now) + hour * HOUR, hour);
    SameHourOfDay(TruncDay(now) + hour * HOUR + DAY, hour);
    FirstIff(now, hour, next);
    assert now == TruncDay(now) + now % DAY && 0 <= now % DAY < DAY;
    hide TruncDay, FirstAt;
  }

  /** An instant at the hour is the first exactly when it is at most a day away. */
  lemma FirstIff(now: int, hour: int, next: int)
    requires next % DAY == hour * HOUR % DAY
    ensures FirstAt(now, hour, next) <==> now < next <= now + DAY
  {
    if now < next <= now + DAY {
      forall t | now < t < next ensures t % DAY != hour * HOUR % DAY {
        if t % DAY == next % DAY { SameTimeOfDay(t, next); }
      }
    } else if now < next {
      DayEarlier(next);
      assert now < next - DAY < next;
    }
  }

  lemma DayEarlier(t: int)
    ensures (t - DAY) % DAY == t % DAY
  {
  }

  lemma SameHourOfDay(t: int, hour: int)
    requires (t - hour * HOUR) % DAY == 0
    ensures t % DAY == hour * HOUR % DAY
  {
  }

  lemma SameTimeOfDay(t: int, u: int)
    requires t % DAY == u % DAY && u - DAY < t <= u
    ensures t == u
  {
  }
}
