/** The check history of one monitor: stored results, stored status, and the
    events sent on transitions. */
module HealthHistory {
  import opened Rows
  import opened Counting

  datatype Status = Up | Down | Unknown

  datatype Result = Result(status: Status, checkedAt: int)

  const KEEP: nat := 200

  function NewerThan(r: Result, rows: seq<Result>): nat {
    if |rows| == 0 then 0
    else NewerThan(r, rows[..|rows| - 1]) + if rows[|rows| - 1].checkedAt > r.checkedAt then 1 else 0
  }

  /** ORDER BY checked_at DESC LIMIT keep: fewer than `keep` rows are newer. */
  function AmongNewest(rows: seq<Result>, keep: nat): Result -> bool {
    (r: Result) => NewerThan(r, rows) < keep
  }

  function Pruned(rows: seq<Result>, keep: nat): seq<Result> {
    Filter(AmongNewest(rows, keep), rows)
  }

  ghost predicate Increasing(rows: seq<Result>) {
    forall i, j :: 0 <= i < j < |rows| ==> rows[i].checkedAt < rows[j].checkedAt
  }

  function Last<T>(s: seq<T>, n: nat): seq<T> {
    if n <= |s| then s[|s| - n..] else s
  }

  lemma {:induction false} NewerCount(rows: seq<Result>, r: Result, i: nat, n: nat)
    requires Increasing(rows) && i < |rows| && rows[i] == r && n <= |rows|
    ensures NewerThan(r, rows[..n]) == if n <= i + 1 then 0 else n - 1 - i
  {
    if n > 0 {
      NewerCount(rows, r, i, n - 1);
      assert rows[..n][..n - 1] == rows[..n - 1];
      if n - 1 < i { assert rows[n - 1].checkedAt < rows[i].checkedAt; }
    }
  }

  lemma {:induction false} FilterFrom(p: Result -> bool, rows: seq<Result>, cut: nat)
    requires cut <= |rows| && forall i :: 0 <= i < |rows| ==> (p(rows[i]) <==> cut <= i)
    ensures Filter(p, rows) == rows[cut..]
  {
    if |rows| > 0 {
      var front := rows[..|rows| - 1];
      if cut == |rows| {
        FilterFrom(p, front, cut - 1);
        assert !p(rows[|rows| - 1]);
      } else {
        FilterFrom(p, front, cut);
        assert rows[cut..] == front[cut..] + [rows[|rows| - 1]];
      }
    }
  }

  /** On rows of increasing time pruning keeps exactly the last ones. */
  lemma PrunedIsLast(rows: seq<Result>, keep: nat)
    requires Increasing(rows)
    ensures Pruned(rows, keep) == Last(rows, keep)
  {
    var cut := if keep <= |rows| then |rows| - keep else 0;
    forall i | 0 <= i < |rows| ensures AmongNewest(rows, keep)(rows[i]) <==> cut <= i {
      NewerCount(rows, rows[i], i, |rows|);
      assert rows[..|rows|] == rows;
    }
    FilterFrom(AmongNewest(rows, keep), rows, cut);
  }

  function Later(t: int): Result -> bool { (r: Result) => r.checkedAt > t }

  lemma {:induction false} NewerChooses(r: Result, rows: seq<Result>)
    ensures NewerThan(r, rows) == |Chosen(Later(r.checkedAt), rows)|
  {
    if |rows| == 0 {
      ChosenNothing(Later(r.checkedAt), rows);
    } else {
      var t, e := rows[..|rows| - 1], rows[|rows| - 1];
      assert rows == t + [e];
      NewerChooses(r, t);
      ChosenLast(Later(r.checkedAt), t, e);
    }
  }

  ghost function Newer(rows: seq<Result>, t: int): set<int> { set j | 0 <= j < |rows| && rows[j].checkedAt > t }

  /** The rows fewer than 200 others are newer than. */
  ghost function Newest(rows: seq<Result>): set<int> { set i | 0 <= i < |rows| && |Newer(rows, rows[i].checkedAt)| < 200 }

  lemma PrunedPicks(rows: seq<Result>)
    ensures Picks(rows, Newest(rows), Pruned(rows, KEEP))
  {
    forall i | 0 <= i < |rows| ensures NewerThan(rows[i], rows) == |Newer(rows, rows[i].checkedAt)| {
      NewerChooses(rows[i], rows);
      assert Chosen(Later(rows[i].checkedAt), rows) == Newer(rows, rows[i].checkedAt);
    }
    FilterPicks(AmongNewest(rows, KEEP), rows);
    assert Chosen(AmongNewest(rows, KEEP), rows) == Newest(rows);
    hide Picks, Filter;
  }

  /** One check, and whether each of its database writes succeeds. */
  datatype Check = Check(status: Status, at: int, saveOk: bool, updateOk: bool, pruneOk: bool)

  datatype State = State(lastStatus: Status, results: seq<Result>, events: seq<Status>)

  predicate Transition(prev: Status, status: Status) {
    prev != status && prev != Unknown
  }

  function Apply(st: State, c: Check): State {
    var saved := if c.saveOk then st.results + [Result(c.status, c.at)] else st.results;
    State(if c.updateOk then c.status else st.lastStatus,
          if c.pruneOk then Pruned(saved, KEEP) else saved,
          if Transition(st.lastStatus, c.status) then st.events + [c.status] else st.events)
  }

  function Run(initial: Status, checks: seq<Check>): State {
    if |checks| == 0 then State(initial, [], []) else Apply(Run(initial, checks[..|checks| - 1]), checks[|checks| - 1])
  }

  /** The stored monitor and its results, as recordResult changes them. */
  class Store {
    var lastStatus: Status
    var results: seq<Result>
    var events: seq<Status>

    ghost function View(): State
      reads this
    {
      State(lastStatus, results, events)
    }

    constructor (initial: Status)
      ensures View() == Run(initial, [])
    {
      lastStatus, results, events := initial, [], [];
    }

    method SaveResult(r: Result)
      modifies this`results
      ensures results == old(results) + [r]
    {
      results := results + [r];
    }

    method UpdateStatus(status: Status)
      modifies this`lastStatus
      ensures lastStatus == status
    {
      lastStatus := status;
    }

    method PruneResults(keep: nat)
      modifies this`results
      ensures results == Pruned(old(results), keep)
    {
      results := Pruned(results, keep);
    }

    method RecordResult(c: Check)
      modifies this
      ensures View() == Apply(old(View()), c)
      ensures lastStatus == if c.updateOk then c.status else old(lastStatus)
      ensures events == if old(lastStatus) != Unknown && c.status != old(lastStatus) then old(events) + [c.status] else old(events)
      ensures var saved := if c.saveOk then old(results) + [Result(c.status, c.at)] else old(results);
              if c.pruneOk then Picks(saved, Newest(saved), results) else results == saved
    {
      PrunedPicks(if c.saveOk then results + [Result(c.status, c.at)] else results);
      hide Pruned, Picks, Newest;
      var prev := lastStatus;
      if c.saveOk { SaveResult(Result(c.status, c.at)); }
      if c.updateOk { UpdateStatus(c.status); }
      if c.pruneOk { PruneResults(KEEP); }
      if prev == c.status || prev == Unknown { return; }
      events := events + [c.status];
    }
  }

  // ----- stored results

  /** The results whose INSERT succeeded, in order. */
  function Saved(checks: seq<Check>): seq<Result> {
    if |checks| == 0 then []
    else
      var c := checks[|checks| - 1];
      Saved(checks[..|checks| - 1]) + if c.saveOk then [Result(c.status, c.at)] else []
  }

  ghost predicate InOrder(checks: seq<Check>) {
    forall i, j :: 0 <= i < j < |checks| ==> checks[i].at < checks[j].at
  }

  lemma {:induction false} SavedIncreasing(checks: seq<Check>)
    requires InOrder(checks)
    ensures Increasing(Saved(checks))
    ensures forall r :: r in Saved(checks) ==> exists i :: 0 <= i < |checks| && checks[i].at == r.checkedAt
  {
    if |checks| > 0 {
      var front, c := checks[..|checks| - 1], checks[|checks| - 1];
      SavedIncreasing(front);
      var s := Saved(front);
      forall i | 0 <= i < |s| ensures s[i].checkedAt < c.at {
        assert s[i] in s;
        var k :| 0 <= k < |front| && front[k].at == s[i].checkedAt;
        assert checks[k] == front[k];
      }
      forall r | r in Saved(checks) ensures exists i :: 0 <= i < |checks| && checks[i].at == r.checkedAt {
        if r in s {
          var k :| 0 <= k < |front| && front[k].at == r.checkedAt;
          assert checks[k] == front[k];
        } else {
          assert checks[|checks| - 1].at == r.checkedAt;
        }
      }
    }
  }

  function Min(a: nat, b: nat): nat { if a < b then a else b }

  /** `rows` is a tail of `saved`, of at least 200 results if there are that many. */
  ghost predicate MostRecent(rows: seq<Result>, saved: seq<Result>) {
    |rows| <= |saved| && rows == Last(saved, |rows|) && |rows| >= Min(|saved|, KEEP)
  }

  lemma SaveKeepsRecent(rows: seq<Result>, saved: seq<Result>, r: Result)
    requires MostRecent(rows, saved)
    ensures MostRecent(rows + [r], saved + [r])
  {
    assert (saved + [r])[|saved| - |rows|..] == saved[|saved| - |rows|..] + [r];
  }

  lemma SuffixIncreasing(rows: seq<Result>, n: nat)
    requires Increasing(rows) && n <= |rows|
    ensures Increasing(Last(rows, n))
    ensures forall k: nat :: k <= n ==> Last(Last(rows, n), k) == Last(rows, k)
  {
    forall k: nat | k <= n ensures Last(Last(rows, n), k) == Last(rows, k) {
      assert rows[|rows| - n..][n - k..] == rows[|rows| - k..];
    }
  }

  lemma PruneKeepsRecent(rows: seq<Result>, saved: seq<Result>)
    requires MostRecent(rows, saved) && Increasing(saved)
    ensures Pruned(rows, KEEP) == Last(saved, Min(|saved|, KEEP))
    ensures MostRecent(Pruned(rows, KEEP), saved)
  {
    SuffixIncreasing(saved, |rows|);
    hide Increasing;
    PrunedIsLast(rows, KEEP);
  }

  /** What is stored is always the most recent saved results, never fewer than
      200 if there are that many, and exactly min(n, 200) after a check whose
      prune succeeded. */
  lemma {:induction false} ResultsAreMostRecent(initial: Status, checks: seq<Check>)
    requires InOrder(checks)
    ensures MostRecent(Run(initial, checks).results, Saved(checks))
    ensures |checks| > 0 && checks[|checks| - 1].pruneOk ==>
              Run(initial, checks).results == Last(Saved(checks), Min(|Saved(checks)|, KEEP))
  {
    if |checks| > 0 {
      var front, c := checks[..|checks| - 1], checks[|checks| - 1];
      SavedIncreasing(checks);
      ResultsAreMostRecent(initial, front);
      hide Increasing, InOrder, MostRecent, Pruned, Last;
      var before := Run(initial, front).results;
      var r := Result(c.status, c.at);
      if c.saveOk { SaveKeepsRecent(before, Saved(front), r); }
      var rows := if c.saveOk then before + [r] else before;
      assert Saved(checks) == if c.saveOk then Saved(front) + [r] else Saved(front) + [];
      assert Saved(front) + [] == Saved(front);
      PruneKeepsRecent(rows, Saved(checks));
    }
  }

  // ----- events

  /** The first known status: the initial one, or the first one written. */
  function Base(initial: Status, checks: seq<Check>): Status {
    if |checks| == 0 then initial
    else
      var b := Base(initial, checks[..|checks| - 1]);
      var c := checks[|checks| - 1];
      if b == Unknown && c.updateOk then c.status else b
  }

  /** What someone who knows the first status and the events believes. */
  function Believed(initial: Status, checks: seq<Check>): Status {
    var events := Run(initial, checks).events;
    if |events| == 0 then Base(initial, checks) else events[|events| - 1]
  }

  ghost predicate Tracks(initial: Status, checks: seq<Check>) {
    Believed(initial, checks) == Run(initial, checks).lastStatus
  }

  /** Every transition seen so far reached the stored status. */
  ghost predicate TransitionsStored(initial: Status, checks: seq<Check>) {
    forall i :: 0 <= i < |checks| && Transition(Run(initial, checks[..i]).lastStatus, checks[i].status) ==> checks[i].updateOk
  }

  ghost predicate Alternating(base: Status, events: seq<Status>) {
    && (|events| > 0 ==> events[0] != base)
    && forall i :: 0 < i < |events| ==> events[i] != events[i - 1]
  }

  /** A check finds its monitor up or down, never unknown. */
  ghost predicate Definite(checks: seq<Check>) {
    forall i :: 0 <= i < |checks| ==> checks[i].status != Unknown
  }

  ghost predicate Knows(base: Status, st: State) {
    && (if |st.events| == 0 then base else st.events[|st.events| - 1]) == st.lastStatus
    && Alternating(base, st.events)
    && (st.lastStatus == Unknown <==> base == Unknown)
    && (base == Unknown ==> st.events == [])
  }

  lemma StepKnows(base: Status, st: State, c: Check)
    requires Knows(base, st) && c.status != Unknown && (Transition(st.lastStatus, c.status) ==> c.updateOk)
    ensures Knows(if base == Unknown && c.updateOk then c.status else base, Apply(st, c))
  {
  }

  lemma FrontStored(initial: Status, checks: seq<Check>)
    requires |checks| > 0 && Definite(checks) && TransitionsStored(initial, checks)
    ensures var (front, c) := (checks[..|checks| - 1], checks[|checks| - 1]);
            && Definite(front) && TransitionsStored(initial, front) && c.status != Unknown
            && (Transition(Run(initial, front).lastStatus, c.status) ==> c.updateOk)
  {
    hide Run, Transition;
    var n := |checks| - 1;
    assert forall i :: 0 <= i < n ==> checks[..n][..i] == checks[..i] && checks[..n][i] == checks[i];
  }

  lemma {:induction false} StoredTransitionsTrack(initial: Status, checks: seq<Check>)
    requires Definite(checks) && TransitionsStored(initial, checks)
    ensures Knows(Base(initial, checks), Run(initial, checks)) && Tracks(initial, checks)
  {
    if |checks| > 0 {
      var front, c := checks[..|checks| - 1], checks[|checks| - 1];
      FrontStored(initial, checks);
      hide Knows, Apply, Definite, TransitionsStored, Transition;
      StoredTransitionsTrack(initial, front);
      StepKnows(Base(initial, front), Run(initial, front), c);
    }
    KnowsTracks(initial, checks);
  }

  lemma KnowsTracks(initial: Status, checks: seq<Check>)
    requires Knows(Base(initial, checks), Run(initial, checks))
    ensures Tracks(initial, checks)
  {
    hide Run, Base, Alternating;
  }

  lemma PrefixStored(initial: Status, checks: seq<Check>, n: nat)
    requires n <= |checks| && Definite(checks) && TransitionsStored(initial, checks)
    ensures Definite(checks[..n]) && TransitionsStored(initial, checks[..n])
  {
    hide Run, Transition;
    assert forall i :: 0 <= i < n ==> checks[..n][..i] == checks[..i] && checks[..n][i] == checks[i];
  }

  /** A transition whose update is lost leaves events and status apart. */
  lemma TrackedMeansStored(initial: Status, checks: seq<Check>, i: nat)
    requires i < |checks| && Transition(Run(initial, checks[..i]).lastStatus, checks[i].status)
    requires Tracks(initial, checks[..i + 1])
    ensures checks[i].updateOk
  {
    assert checks[..i + 1][..i] == checks[..i];
    hide Pruned;
  }

  /** First status plus events tell the stored status after every check exactly
      when no transition's status update fails. */
  lemma EventsTellStatusIff(initial: Status, checks: seq<Check>)
    requires Definite(checks)
    ensures (forall n :: 0 <= n <= |checks| ==> Tracks(initial, checks[..n])) <==> TransitionsStored(initial, checks)
  {
    hide Run, Transition, Tracks, Definite;
    if TransitionsStored(initial, checks) {
      forall n | 0 <= n <= |checks| ensures Tracks(initial, checks[..n]) {
        PrefixStored(initial, checks, n);
        StoredTransitionsTrack(initial, checks[..n]);
      }
    }
    if forall n :: 0 <= n <= |checks| ==> Tracks(initial, checks[..n]) {
      forall i | 0 <= i < |checks| && Transition(Run(initial, checks[..i]).lastStatus, checks[i].status)
        ensures checks[i].updateOk
      {
        assert Tracks(initial, checks[..i + 1]);
        TrackedMeansStored(initial, checks, i);
      }
    }
  }

  /** The check of index i is a transition: its event is sent. */
  predicate TransitionAt(initial: Status, checks: seq<Check>, i: nat)
    requires i < |checks|
  {
    Transition(Run(initial, checks[..i]).lastStatus, checks[i].status)
  }

  /** The status update of some transition failed. */
  ghost predicate SomeLost(initial: Status, checks: seq<Check>) {
    exists i :: 0 <= i < |checks| && TransitionAt(initial, checks, i) && !checks[i].updateOk
  }

  /** Only the last transition may have lost its update. */
  ghost predicate OnlyLastLost(initial: Status, checks: seq<Check>) {
    forall i, j :: 0 <= i < j < |checks| && TransitionAt(initial, checks, i) && TransitionAt(initial, checks, j) ==>
                     checks[i].updateOk
  }

  /** Where the events stand: in step with the status, one lost transition ahead
      of it, or already repeating themselves. */
  ghost predicate Follows(base: Status, st: State, lost: bool, onlyLast: bool) {
    if !lost then Knows(base, st) && onlyLast
    else
      && base != Unknown && st.lastStatus != Unknown && |st.events| > 0 && st.events[|st.events| - 1] != Unknown
      && (onlyLast <==> Alternating(base, st.events))
      && (onlyLast ==> st.events[|st.events| - 1] != st.lastStatus)
  }

  lemma AlternatingSnoc(base: Status, events: seq<Status>, e: Status)
    ensures Alternating(base, events + [e]) <==>
            Alternating(base, events) && e != if |events| == 0 then base else events[|events| - 1]
  {
    var all := events + [e];
    if Alternating(base, all) {
      assert forall i :: 0 <= i < |events| ==> all[i] == events[i];
      assert |events| > 0 ==> all[|events|] != all[|events| - 1];
    }
  }

  lemma TransitionAtFront(initial: Status, checks: seq<Check>, i: nat)
    requires i < |checks| - 1
    ensures TransitionAt(initial, checks[..|checks| - 1], i) <==> TransitionAt(initial, checks, i)
  {
    assert checks[..|checks| - 1][..i] == checks[..i];
  }

  lemma SomeLostStep(initial: Status, checks: seq<Check>)
    requires |checks| > 0
    ensures var (n, front) := (|checks| - 1, checks[..|checks| - 1]);
            SomeLost(initial, checks) <==>
            SomeLost(initial, front) || (TransitionAt(initial, checks, n) && !checks[n].updateOk)
  {
    var (n, front) := (|checks| - 1, checks[..|checks| - 1]);
    hide TransitionAt;
    if SomeLost(initial, front) {
      var i :| 0 <= i < n && TransitionAt(initial, front, i) && !front[i].updateOk;
      TransitionAtFront(initial, checks, i);
    }
    if SomeLost(initial, checks) {
      var i :| 0 <= i <= n && TransitionAt(initial, checks, i) && !checks[i].updateOk;
      if i < n { TransitionAtFront(initial, checks, i); }
    }
  }

  lemma OnlyLastLostStep(initial: Status, checks: seq<Check>)
    requires |checks| > 0
    ensures var (n, front) := (|checks| - 1, checks[..|checks| - 1]);
            OnlyLastLost(initial, checks) <==>
            OnlyLastLost(initial, front) && !(TransitionAt(initial, checks, n) && SomeLost(initial, front))
  {
    var (n, front) := (|checks| - 1, checks[..|checks| - 1]);
    hide TransitionAt;
    if OnlyLastLost(initial, front) && !(TransitionAt(initial, checks, n) && SomeLost(initial, front)) {
      forall i, j | 0 <= i < j < |checks| && TransitionAt(initial, checks, i) && TransitionAt(initial, checks, j)
        ensures checks[i].updateOk
      {
        TransitionAtFront(initial, checks, i);
        assert front[i] == checks[i];
        if j < n { TransitionAtFront(initial, checks, j); }
      }
    }
    if OnlyLastLost(initial, checks) {
      forall i, j | 0 <= i < j < |front| && TransitionAt(initial, front, i) && TransitionAt(initial, front, j)
        ensures front[i].updateOk
      {
        TransitionAtFront(initial, checks, i);
        TransitionAtFront(initial, checks, j);
      }
      if TransitionAt(initial, checks, n) && SomeLost(initial, front) { LostThenMore(initial, checks); }
    }
  }

  lemma LostThenMore(initial: Status, checks: seq<Check>)
    requires |checks| > 0 && TransitionAt(initial, checks, |checks| - 1) && SomeLost(initial, checks[..|checks| - 1])
    ensures !OnlyLastLost(initial, checks)
  {
    hide TransitionAt;
    var front := checks[..|checks| - 1];
    var i :| 0 <= i < |front| && TransitionAt(initial, front, i) && !front[i].updateOk;
    TransitionAtFront(initial, checks, i);
    assert !checks[i].updateOk;
  }

  lemma StepFollows(base: Status, st: State, c: Check, lost: bool, onlyLast: bool)
    requires Follows(base, st, lost, onlyLast) && c.status != Unknown
    ensures var here := Transition(st.lastStatus, c.status);
            Follows(if base == Unknown && c.updateOk then c.status else base, Apply(st, c),
                    lost || (here && !c.updateOk), onlyLast && !(here && lost))
  {
    hide Pruned;
    var here := Transition(st.lastStatus, c.status);
    if !lost && (here ==> c.updateOk) {
      StepKnows(base, st, c);
    } else {
      AlternatingSnoc(base, st.events, c.status);
      hide Alternating;
    }
  }

  lemma {:induction false} EventsFollow(initial: Status, checks: seq<Check>)
    requires Definite(checks)
    ensures Follows(Base(initial, checks), Run(initial, checks), SomeLost(initial, checks), OnlyLastLost(initial, checks))
  {
    if |checks| > 0 {
      var front, c := checks[..|checks| - 1], checks[|checks| - 1];
      assert Definite(front);
      EventsFollow(initial, front);
      SomeLostStep(initial, checks);
      OnlyLastLostStep(initial, checks);
      assert TransitionAt(initial, checks, |checks| - 1) == Transition(Run(initial, front).lastStatus, c.status);
      hide Apply, Transition, SomeLost, OnlyLastLost, TransitionAt, Definite;
      StepFollows(Base(initial, front), Run(initial, front), c, SomeLost(initial, front), OnlyLastLost(initial, front));
    }
  }

  lemma NeverLost(initial: Status, checks: seq<Check>)
    ensures Follows(Base(initial, checks), Run(initial, checks), SomeLost(initial, checks), OnlyLastLost(initial, checks)) ==>
              (Alternating(Base(initial, checks), Run(initial, checks).events) <==> OnlyLastLost(initial, checks))
  {
    hide Run, Base, Alternating, SomeLost, OnlyLastLost;
  }

  /** Down and up events strictly alternate, starting opposite to the first known
      status, exactly when no transition that lost its status update is followed
      by another transition. */
  lemma EventsAlternateIff(initial: Status, checks: seq<Check>)
    requires Definite(checks)
    ensures Alternating(Base(initial, checks), Run(initial, checks).events) <==>
            forall i, j :: 0 <= i < j < |checks| && TransitionAt(initial, checks, i) && TransitionAt(initial, checks, j) ==>
                             checks[i].updateOk
  {
    EventsFollow(initial, checks);
    NeverLost(initial, checks);
    hide Run, Base, Alternating, TransitionAt, SomeLost;
  }

  /** A lost update repeats an event: from any up state, two failing checks whose
      updates are lost send two down events. */
  lemma LostUpdateRepeatsEvent(st: State, first: Check, second: Check)
    requires st.lastStatus == Up && first.status == second.status == Down && !first.updateOk && !second.updateOk
    ensures Apply(Apply(st, first), second).events == st.events + [Down, Down]
  {
    hide Pruned;
  }
}
