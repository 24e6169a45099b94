/** Exactly when trimming windows at one hour shows: for every lag of the clock
    readings and every rule, a run on which it does, or none. */
module AnomalyForgets {
  import opened Options
  import opened AnomalyKeys
  import opened VolumeSpike
  import opened Anomaly
  import opened AnomalyLaws

  // ----- windows of equal entries

  function Copies(e: Entry, n: nat): seq<Entry> { seq(n, _ => e) }

  lemma CopiesNext(e: Entry, n: nat)
    ensures Copies(e, n + 1) == Copies(e, n) + [e] && Copies(e, 0) == []
  {
  }

  lemma {:induction false} SinceAll(entries: seq<Entry>, t: int)
    requires forall i :: 0 <= i < |entries| ==> t <= entries[i].timestamp
    ensures Since(entries, t) == entries
  {
    if |entries| > 0 {
      SinceAll(entries[..|entries| - 1], t);
      assert entries == entries[..|entries| - 1] + [entries[|entries| - 1]];
    }
  }

  lemma {:induction false} CountAll(p: Entry -> bool, entries: seq<Entry>)
    requires forall i :: 0 <= i < |entries| ==> p(entries[i])
    ensures Count(p, entries) == |entries|
  {
    if |entries| > 0 { CountAll(p, entries[..|entries| - 1]); }
  }

  lemma CopiesCount(e: Entry, n: nat, t: int, p: Entry -> bool)
    requires t <= e.timestamp && p(e)
    ensures Since(Copies(e, n), t) == Copies(e, n) && Count(p, Copies(e, n)) == n && |Copies(e, n)| == n
    ensures Since([], t) == [] && Count(p, []) == 0
  {
    SinceAll(Copies(e, n), t);
    CountAll(p, Copies(e, n));
  }

  // ----- arrivals of one event, again and again

  function Adds(ev: Event, at: int, n: nat): seq<Step> { seq(n, _ => Add(ev, at)) }

  function RouteAdds(ev: Event, at: int, n: nat): seq<Step> { seq(n, _ => AddRoute(ev, at)) }

  lemma TrimOne(e: Entry, cutoff: int)
    ensures Trim([e], cutoff) == if e.timestamp < cutoff then [] else [e]
  {
    assert [e][1..] == [];
  }

  lemma TrimKept(entries: seq<Entry>, cutoff: int)
    requires |entries| > 0 && cutoff <= entries[0].timestamp
    ensures Trim(entries, cutoff) == entries
  {
  }

  /** What n arrivals of an event leave of a window: all of them, unless windows
      are trimmed and they are late. */
  function Filled(before: seq<Entry>, e: Entry, at: int, n: nat, trims: bool): seq<Entry> {
    if trims && e.timestamp < at - HOUR then before else before + Copies(e, n)
  }

  lemma FilledNext(before: seq<Entry>, e: Entry, at: int, n: nat, trims: bool)
    requires trims ==> before == []
    ensures (if trims then Trim(Filled(before, e, at, n, trims) + [e], at - HOUR) else Filled(before, e, at, n, trims) + [e]) ==
            Filled(before, e, at, n + 1, trims)
    ensures Filled(before, e, at, 0, trims) == before
  {
    CopiesNext(e, n);
    if trims {
      var w := Filled(before, e, at, n, trims);
      if w == [] {
        assert w + [e] == [e];
        TrimOne(e, at - HOUR);
      } else {
        TrimKept(w + [e], at - HOUR);
      }
    }
  }

  lemma {:induction false} AddsFill(st: State, ev: Event, at: int, n: nat, trims: bool, sqrt: real -> real)
    requires trims ==> Get(st.windows, WindowKey(ev.project, ev.service)).entries == []
    ensures var st' := RunFrom(st, Adds(ev, at, n), trims, sqrt);
            && Get(st'.windows, WindowKey(ev.project, ev.service)).entries ==
               Filled(Get(st.windows, WindowKey(ev.project, ev.service)).entries, EntryOf(ev), at, n, trims)
            && Quiet(st', st)
  {
    var key := WindowKey(ev.project, ev.service);
    hide WindowKey, Trim, Filled, RunFrom;
    FilledNext(Get(st.windows, key).entries, EntryOf(ev), at, if n > 0 then n - 1 else 0, trims);
    if n == 0 {
      assert Adds(ev, at, n) == [];
      RunNothing(st, trims, sqrt);
    } else {
      AddsFill(st, ev, at, n - 1, trims, sqrt);
      assert Adds(ev, at, n) == Adds(ev, at, n - 1) + [Add(ev, at)];
      RunLast(st, Adds(ev, at, n - 1), Add(ev, at), trims, sqrt);
    }
  }

  lemma {:induction false} RouteAddsFill(st: State, ev: Event, at: int, n: nat, trims: bool, sqrt: real -> real)
    requires trims ==> Get(st.routes, RouteKey(ev.project, ev.path, ev.verb)).entries == []
    ensures var st' := RunFrom(st, RouteAdds(ev, at, n), trims, sqrt);
            && Get(st'.routes, RouteKey(ev.project, ev.path, ev.verb)).entries ==
               Filled(Get(st.routes, RouteKey(ev.project, ev.path, ev.verb)).entries, RouteEntryOf(ev), at, n, trims)
            && Quiet(st', st)
  {
    var key := RouteKey(ev.project, ev.path, ev.verb);
    hide RouteKey, Trim, Filled, RunFrom;
    FilledNext(Get(st.routes, key).entries, RouteEntryOf(ev), at, if n > 0 then n - 1 else 0, trims);
    if n == 0 {
      assert RouteAdds(ev, at, n) == [];
      RunNothing(st, trims, sqrt);
    } else {
      RouteAddsFill(st, ev, at, n - 1, trims, sqrt);
      assert RouteAdds(ev, at, n) == RouteAdds(ev, at, n - 1) + [AddRoute(ev, at)];
      RunLast(st, RouteAdds(ev, at, n - 1), AddRoute(ev, at), trims, sqrt);
    }
  }

  lemma RunNothing(st: State, trims: bool, sqrt: real -> real)
    ensures RunFrom(st, [], trims, sqrt) == st
  {
  }

  /** No alert was raised in between, and no cooldown started. */
  ghost predicate Quiet(st': State, st: State) {
    st'.alerts == st.alerts && st'.cooldown == st.cooldown && st'.routeCooldown == st.routeCooldown
  }

  // ----- a look and its firing

  function AlertOf(h: Held): seq<Alert> {
    match h
    case RuleVerdict(project, service, environment, rt, details) =>
      [Alert(project, service, environment, rt, details, 0)]
    case RouteVerdict(ev, details) => [Alert(ev.project, ev.service, ev.environment, ErrorRateByRoute, details, 0)]
    case LastArrival(_, _) => []
  }

  function AlertsOf(h: Option<Held>): seq<Alert> { if h.None? then [] else AlertOf(h.value) }

  lemma HoldThenFire(st: State, h: Option<Held>)
    requires Quiet(st, START)
    ensures var mid := Hold(st, 0, h);
            if h.None? then 0 !in mid.held && mid.alerts == []
            else 0 in mid.held && mid.held[0] == h.value && FireHeld(mid, h.value, 0, 0).alerts == AlertOf(h.value)
  {
    hide CooldownKey, RouteKey;
  }

  /** With no cooldown running the alert is raised at once. */
  lemma LookThenFire(st: State, look: Step, h: Option<Held>, trims: bool, sqrt: real -> real)
    requires Quiet(st, START) && Apply(st, look, trims, sqrt) == Hold(st, 0, h)
    ensures RunFrom(st, [look] + [Fire(0, 0, 0)], trims, sqrt).alerts == AlertsOf(h)
  {
    RunOne(st, look, trims, sqrt);
    RunLast(st, [look], Fire(0, 0, 0), trims, sqrt);
    HoldThenFire(st, h);
    hide RunFrom, FireHeld, AlertOf;
  }

  lemma FilledThenFired(steps: seq<Step>, look: Step, h: Option<Held>, trims: bool, sqrt: real -> real)
    requires Quiet(RunFrom(START, steps, trims, sqrt), START)
    requires Apply(RunFrom(START, steps, trims, sqrt), look, trims, sqrt) == Hold(RunFrom(START, steps, trims, sqrt), 0, h)
    ensures RunFrom(START, steps + ([look] + [Fire(0, 0, 0)]), trims, sqrt).alerts == AlertsOf(h)
  {
    hide *;
    RunAppend(START, steps, [look] + [Fire(0, 0, 0)], trims, sqrt);
    LookThenFire(RunFrom(START, steps, trims, sqrt), look, h, trims, sqrt);
  }

  // ----- the runs

  ghost predicate OnlyRule(rule: Rule, steps: seq<Step>) {
    forall i :: 0 <= i < |steps| && steps[i].Look? ==> steps[i].rule == rule
  }

  ghost predicate TrimmingHidden(steps: seq<Step>, sqrt: real -> real) {
    RunFrom(START, steps, true, sqrt).alerts == RunFrom(START, steps, false, sqrt).alerts
  }

  /** A failed DELETE, at its arrival just older than a window keeps: an error, a
      failure and a delete at once. */
  function LateEvent(lag: nat): Event { Event("p", "s", "production", lag - HOUR - 1, 401, "DELETE", "/", "u") }

  /** Late arrivals, the clock read at `lag`; then a look by a caller that read it
      at 0, and the firing. */
  function LateRun(lag: nat, rule: Rule, n: nat): seq<Step> {
    Adds(LateEvent(lag), lag, n) + ([Look(0, LateEvent(lag), rule, 0)] + [Fire(0, 0, 0)])
  }

  lemma LateRunAlerts(lag: nat, rule: Rule, n: nat, trims: bool, sqrt: real -> real)
    ensures RunFrom(START, LateRun(lag, rule, n), trims, sqrt).alerts ==
            AlertsOf(Looked(if trims then [] else Copies(EntryOf(LateEvent(lag)), n), LateEvent(lag), rule, 0, sqrt))
  {
    var (ev, steps) := (LateEvent(lag), Adds(LateEvent(lag), lag, n));
    AddsFill(START, ev, lag, n, trims, sqrt);
    assert [] + Copies(EntryOf(ev), n) == Copies(EntryOf(ev), n);
    hide RunFrom, Looked, AlertsOf, WindowKey, Copies, Adds;
    FilledThenFired(steps, Look(0, ev, rule, 0), Looked(if trims then [] else Copies(EntryOf(ev), n), ev, rule, 0, sqrt), trims, sqrt);
  }

  lemma AllErrors(n: nat)
    requires n > 0
    ensures Percent(n, n) == 100.0
  {
    assert n as real / n as real == 1.0;
  }

  lemma LateCounts(lag: nat)
    ensures var e := EntryOf(LateEvent(lag)); IsError()(e) && IsFailureOf("u")(e) && IsDelete()(e)
  {
  }

  lemma RateIs(threshold: real, recent: seq<Entry>, k: nat)
    requires Count(IsError(), recent) == k
    ensures RateVerdict(threshold, recent) ==
            if |recent| >= 10 && Percent(k, |recent|) >= threshold then Some(Rate(k, |recent|)) else None
  {
    hide Count, IsError, Percent;
  }

  lemma FailureIs(threshold: real, recent: seq<Entry>, ev: Event, k: nat)
    requires Count(IsFailureOf(ev.identifier), recent) == k
    ensures FailureVerdict(threshold, recent, ev) == if k as real >= threshold then Some(Failures(ev.identifier, k)) else None
  {
    hide Count, IsFailureOf;
  }

  lemma DeletesAre(threshold: real, recent: seq<Entry>, k: nat)
    requires Count(IsDelete(), recent) == k
    ensures DeleteVerdict(threshold, recent) == if k as real >= threshold then Some(Deletes(k)) else None
  {
    hide Count, IsDelete;
  }

  lemma RatesDiffer(threshold: real, e: Entry, n: nat, t: int)
    requires n >= 10 && threshold <= 100.0 && t <= e.timestamp && IsError()(e)
    ensures RateVerdict(threshold, Since(Copies(e, n), t)) == Some(Rate(n, n))
    ensures RateVerdict(threshold, Since([], t)) == None
  {
    hide *;
    CopiesCount(e, n, t, IsError());
    AllErrors(n);
    RateIs(threshold, Copies(e, n), n);
    RateIs(threshold, [], 0);
  }

  lemma FailuresDiffer(threshold: real, ev: Event, e: Entry, n: nat, t: int)
    requires 0 < n && threshold <= n as real && t <= e.timestamp && IsFailureOf(ev.identifier)(e)
    ensures FailureVerdict(threshold, Since(Copies(e, n), t), ev) == Some(Failures(ev.identifier, n))
    ensures FailureVerdict(threshold, Since([], t), ev) != Some(Failures(ev.identifier, n))
  {
    hide *;
    CopiesCount(e, n, t, IsFailureOf(ev.identifier));
    FailureIs(threshold, Copies(e, n), ev, n);
    FailureIs(threshold, [], ev, 0);
  }

  lemma DeletesDiffer(threshold: real, e: Entry, n: nat, t: int)
    requires 0 < n && threshold <= n as real && t <= e.timestamp && IsDelete()(e)
    ensures DeleteVerdict(threshold, Since(Copies(e, n), t)) == Some(Deletes(n))
    ensures DeleteVerdict(threshold, Since([], t)) != Some(Deletes(n))
  {
    hide *;
    CopiesCount(e, n, t, IsDelete());
    DeletesAre(threshold, Copies(e, n), n);
    DeletesAre(threshold, [], 0);
  }

  /** With enough late arrivals the full window reaches a verdict on a forgetting
      rule, and the trimmed one not the same. */
  lemma VerdictsDiffer(lag: nat, rule: Rule, n: nat, sqrt: real -> real)
    requires ForgetsWithin(lag, rule) && rule.ruleType != VolumeSpike && n >= 10 && rule.threshold <= n as real
    ensures var (e, t) := (EntryOf(LateEvent(lag)), LookupFrom(rule, 0));
            var full := Verdict(LateEvent(lag), rule, 0, Since(Copies(e, n), t), sqrt);
            full.Some? && Verdict(LateEvent(lag), rule, 0, Since([], t), sqrt) != full
  {
    var (ev, e, t) := (LateEvent(lag), EntryOf(LateEvent(lag)), LookupFrom(rule, 0));
    LateCounts(lag);
    assert t <= e.timestamp && ev.identifier == "u" && ev.status == 401 && ev.verb == "DELETE";
    hide LateEvent, Since, Copies, IsError, IsDelete, IsFailureOf, RateVerdict, FailureVerdict, DeleteVerdict, LookupFrom;
    match rule.ruleType
    case ErrorRate => RatesDiffer(rule.threshold, e, n, t);
    case BruteForce => FailuresDiffer(rule.threshold, ev, e, n, t);
    case MassDelete => DeletesDiffer(rule.threshold, e, n, t);
  }

  lemma LookedDiffer(full: seq<Entry>, trimmed: seq<Entry>, ev: Event, rule: Rule, sqrt: real -> real)
    requires var t := LookupFrom(rule, 0);
             Verdict(ev, rule, 0, Since(full, t), sqrt).Some? &&
             Verdict(ev, rule, 0, Since(trimmed, t), sqrt) != Verdict(ev, rule, 0, Since(full, t), sqrt)
    ensures AlertsOf(Looked(full, ev, rule, 0, sqrt)) != AlertsOf(Looked(trimmed, ev, rule, 0, sqrt))
  {
    hide Verdict, Since, LookupFrom;
    var (a, b) := (AlertsOf(Looked(full, ev, rule, 0, sqrt)), AlertsOf(Looked(trimmed, ev, rule, 0, sqrt)));
    assert |a| == 1;
    if |b| == 1 { assert a[0].details != b[0].details; }
  }

  function Enough(threshold: real): (n: nat)
    ensures n >= 10 && threshold <= n as real
  {
    if threshold <= 10.0 then 10 else threshold.Floor + 1
  }

  lemma LateRunOrdered(lag: nat, rule: Rule, n: nat)
    ensures ClockWithin(lag, LateRun(lag, rule, n)) && OnlyRule(rule, LateRun(lag, rule, n))
  {
    hide LateEvent;
  }

  lemma LateRunShows(lag: nat, rule: Rule, sqrt: real -> real) returns (steps: seq<Step>)
    requires ForgetsWithin(lag, rule) && rule.ruleType != VolumeSpike
    ensures ClockWithin(lag, steps) && OnlyRule(rule, steps) && !TrimmingHidden(steps, sqrt)
  {
    var n := Enough(rule.threshold);
    steps := LateRun(lag, rule, n);
    LateRunOrdered(lag, rule, n);
    VerdictsDiffer(lag, rule, n, sqrt);
    hide LateRun, Verdict, Since, Copies, RunFrom, ForgetsWithin, ClockWithin, OnlyRule, LateEvent, EntryOf, LookupFrom, Looked, AlertsOf;
    LookedDiffer(Copies(EntryOf(LateEvent(lag)), n), [], LateEvent(lag), rule, sqrt);
    LateRunAlerts(lag, rule, n, true, sqrt);
    LateRunAlerts(lag, rule, n, false, sqrt);
  }

  // ----- a spike seen against a minute that was trimmed

  /** A request of the last minute the volume spike counts. */
  const EARLY := Event("p", "s", "production", -HOUR + 1, 200, "GET", "/", "u")

  const CURRENT := EARLY.(timestamp := 0)

  /** 59 requests, one a minute on average; then a burst. */
  function SpikeArrivals(lag: nat, n: nat): seq<Step> { Adds(EARLY, lag, 59) + Adds(CURRENT, lag, n) }

  function SpikeRun(lag: nat, rule: Rule, n: nat): seq<Step> {
    SpikeArrivals(lag, n) + ([Look(0, CURRENT, rule, 0)] + [Fire(0, 0, 0)])
  }

  function SpikeWindow(n: nat, trims: bool): seq<Entry> {
    (if trims then [] else Copies(EntryOf(EARLY), 59)) + Copies(EntryOf(CURRENT), n)
  }

  lemma SpikeFills(lag: nat, n: nat, trims: bool, sqrt: real -> real)
    requires 1 < lag <= HOUR
    ensures var st := RunFrom(START, SpikeArrivals(lag, n), trims, sqrt);
            Get(st.windows, WindowKey("p", "s")).entries == SpikeWindow(n, trims) && Quiet(st, START)
  {
    var mid := RunFrom(START, Adds(EARLY, lag, 59), trims, sqrt);
    AddsFill(START, EARLY, lag, 59, trims, sqrt);
    RunAppend(START, Adds(EARLY, lag, 59), Adds(CURRENT, lag, n), trims, sqrt);
    assert [] + Copies(EntryOf(EARLY), 59) == Copies(EntryOf(EARLY), 59);
    assert EntryOf(EARLY).timestamp < lag - HOUR <= EntryOf(CURRENT).timestamp;
    hide RunFrom, WindowKey, Copies, Adds, EntryOf;
    AddsFill(mid, CURRENT, lag, n, trims, sqrt);
  }

  lemma SpikeRunAlerts(lag: nat, rule: Rule, n: nat, trims: bool, sqrt: real -> real)
    requires 1 < lag <= HOUR
    ensures RunFrom(START, SpikeRun(lag, rule, n), trims, sqrt).alerts ==
            AlertsOf(Looked(SpikeWindow(n, trims), CURRENT, rule, 0, sqrt))
  {
    SpikeFills(lag, n, trims, sqrt);
    hide RunFrom, Looked, AlertsOf, WindowKey, SpikeArrivals, SpikeWindow;
    FilledThenFired(SpikeArrivals(lag, n), Look(0, CURRENT, rule, 0), Looked(SpikeWindow(n, trims), CURRENT, rule, 0, sqrt), trims, sqrt);
  }

  lemma {:induction false} InMinuteSame(now: int, times: seq<int>, x: int, i: int)
    requires forall j :: 0 <= j < |times| ==> times[j] == x
    ensures InMinute(now, times, i) == if WholeMinutes(now - x) == i then |times| else 0
  {
    hide WholeMinutes;
    if |times| > 0 { InMinuteSame(now, times[..|times| - 1], x, i); }
  }

  lemma MinutesOfTwo(a: Entry, k: nat, b: Entry, n: nat, i: int)
    ensures InMinute(0, Timestamps(Copies(a, k) + Copies(b, n)), i) ==
            (if WholeMinutes(-a.timestamp) == i then k else 0) + (if WholeMinutes(-b.timestamp) == i then n else 0)
  {
    var (x, y) := (Timestamps(Copies(a, k)), Timestamps(Copies(b, n)));
    assert Timestamps(Copies(a, k) + Copies(b, n)) == x + y;
    assert |x| == k && (forall j :: 0 <= j < k ==> x[j] == a.timestamp);
    assert |y| == n && (forall j :: 0 <= j < n ==> y[j] == b.timestamp);
    hide *;
    InMinuteAppend(0, x, y, i);
    InMinuteSame(0, x, a.timestamp, i);
    InMinuteSame(0, y, b.timestamp, i);
  }

  lemma SpikeMinutes(n: nat, trims: bool, i: int)
    requires 0 <= i < 60
    ensures InMinute(0, Timestamps(SpikeWindow(n, trims)), i) == if i == 0 then n else if i == 59 && !trims then 59 else 0
  {
    assert EntryOf(EARLY).timestamp == -HOUR + 1 && EntryOf(CURRENT).timestamp == 0;
    assert WholeMinutes(HOUR - 1) == 59 && WholeMinutes(0) == 0;
    hide InMinute, WholeMinutes, Timestamps, Copies, EntryOf;
    if trims {
      assert Copies(EntryOf(EARLY), 0) == [] by { CopiesNext(EntryOf(EARLY), 0); }
      MinutesOfTwo(EntryOf(EARLY), 0, EntryOf(CURRENT), n, i);
    } else {
      MinutesOfTwo(EntryOf(EARLY), 59, EntryOf(CURRENT), n, i);
    }
  }

  /** The history of the full window: one minute of 59 requests. */
  function Spiky(last: real): (history: seq<real>)
    ensures |history| == 59
  {
    seq(58, _ => 0.0) + [last]
  }

  lemma SpikeBuckets(n: nat, trims: bool)
    ensures var b := Buckets(0, Timestamps(SpikeWindow(n, trims)));
            b[0] == n as real && b[1..] == Spiky(if trims then 0.0 else 59.0)
  {
    var b := Buckets(0, Timestamps(SpikeWindow(n, trims)));
    hide SpikeWindow, InMinute;
    forall i | 0 <= i < 60 ensures b[i] == (if i == 0 then n else if i == 59 && !trims then 59 else 0) as real {
      SpikeMinutes(n, trims, i);
    }
  }

  lemma SpikyMean(last: real)
    ensures MeanOf(Spiky(last)) == last / 59.0
  {
    ConstantSum(seq(58, _ => 0.0), 0.0);
    assert Spiky(last)[..58] == seq(58, _ => 0.0);
  }

  lemma SpikeFires(n: nat, trims: bool, threshold: real, sqrt: real -> real)
    requires n as real > 1.0 + threshold * sqrt(VarianceOf(Spiky(59.0)))
    ensures Fires(Buckets(0, Timestamps(SpikeWindow(n, trims))), threshold, sqrt) <==> !trims
  {
    SpikeBuckets(n, trims);
    SpikyMean(59.0);
    SpikyMean(0.0);
    hide Buckets, Timestamps, SpikeWindow, Spiky, MeanOf, VarianceOf;
  }

  lemma SpikeSeen(n: nat, trims: bool)
    ensures Since(SpikeWindow(n, trims), -HOUR) == SpikeWindow(n, trims)
  {
    SinceAll(SpikeWindow(n, trims), -HOUR);
  }

  function Above(x: real): (n: nat)
    ensures n as real > x
  {
    if x < 0.0 then 0 else x.Floor + 1
  }

  lemma SpikeRunOrdered(lag: nat, rule: Rule, n: nat)
    ensures ClockWithin(lag, SpikeRun(lag, rule, n)) && OnlyRule(rule, SpikeRun(lag, rule, n))
  {
  }

  lemma VerdictFires(ev: Event, rule: Rule, recent: seq<Entry>, sqrt: real -> real)
    requires rule.ruleType == VolumeSpike
    ensures Verdict(ev, rule, 0, recent, sqrt).Some? <==> Fires(Buckets(0, Timestamps(recent)), rule.threshold, sqrt)
  {
    hide Fires, Timestamps, InMinute, MeanOf;
  }

  /** The full window fires, the trimmed one does not. */
  ghost predicate ShowsSpike(n: nat, threshold: real, sqrt: real -> real) {
    && Fires(Buckets(0, Timestamps(SpikeWindow(n, false))), threshold, sqrt)
    && !Fires(Buckets(0, Timestamps(SpikeWindow(n, true))), threshold, sqrt)
  }

  lemma SpikeSize(threshold: real, sqrt: real -> real) returns (n: nat)
    ensures ShowsSpike(n, threshold, sqrt)
  {
    n := Above(1.0 + threshold * sqrt(VarianceOf(Spiky(59.0))));
    SpikeFires(n, true, threshold, sqrt);
    SpikeFires(n, false, threshold, sqrt);
    hide Fires, Buckets, Timestamps, SpikeWindow, Spiky, VarianceOf;
  }

  lemma SpikeVerdicts(rule: Rule, n: nat, sqrt: real -> real)
    requires rule.ruleType == VolumeSpike && ShowsSpike(n, rule.threshold, sqrt)
    ensures Verdict(CURRENT, rule, 0, Since(SpikeWindow(n, false), LookupFrom(rule, 0)), sqrt).Some?
    ensures Verdict(CURRENT, rule, 0, Since(SpikeWindow(n, true), LookupFrom(rule, 0)), sqrt).None?
  {
    assert LookupFrom(rule, 0) == -HOUR;
    hide Verdict, Since, SpikeWindow, LookupFrom, Fires, Buckets, Timestamps;
    SpikeSeen(n, false);
    SpikeSeen(n, true);
    VerdictFires(CURRENT, rule, SpikeWindow(n, false), sqrt);
    VerdictFires(CURRENT, rule, SpikeWindow(n, true), sqrt);
  }

  lemma SpikeRunShows(lag: nat, rule: Rule, sqrt: real -> real) returns (steps: seq<Step>)
    requires 1 < lag <= HOUR && rule.ruleType == VolumeSpike
    ensures ClockWithin(lag, steps) && OnlyRule(rule, steps) && !TrimmingHidden(steps, sqrt)
  {
    hide RunFrom, ClockWithin, OnlyRule, SpikeRun, SpikeWindow, Verdict, Since, LookupFrom, Looked, AlertsOf, ShowsSpike;
    var n := SpikeSize(rule.threshold, sqrt);
    steps := SpikeRun(lag, rule, n);
    SpikeRunOrdered(lag, rule, n);
    SpikeVerdicts(rule, n, sqrt);
    LookedDiffer(SpikeWindow(n, false), SpikeWindow(n, true), CURRENT, rule, sqrt);
    SpikeRunAlerts(lag, rule, n, true, sqrt);
    SpikeRunAlerts(lag, rule, n, false, sqrt);
  }

  // ----- the route check, whose five minutes a long lag outlasts

  function RouteRun(lag: nat, n: nat): seq<Step> {
    RouteAdds(LateEvent(lag), lag, n) + ([LookRoute(0, LateEvent(lag), 0)] + [Fire(0, 0, 0)])
  }

  lemma RouteRunAlerts(lag: nat, n: nat, trims: bool, sqrt: real -> real)
    ensures RunFrom(START, RouteRun(lag, n), trims, sqrt).alerts ==
            AlertsOf(LookedRoute(if trims then [] else Copies(RouteEntryOf(LateEvent(lag)), n), LateEvent(lag), 0))
  {
    var (ev, steps) := (LateEvent(lag), RouteAdds(LateEvent(lag), lag, n));
    RouteAddsFill(START, ev, lag, n, trims, sqrt);
    assert [] + Copies(RouteEntryOf(ev), n) == Copies(RouteEntryOf(ev), n);
    assert Filled([], RouteEntryOf(ev), lag, n, trims) == if trims then [] else Copies(RouteEntryOf(ev), n);
    hide RunFrom, LookedRoute, AlertsOf, RouteKey, Copies, RouteAdds, LateEvent, Filled;
    FilledThenFired(steps, LookRoute(0, ev, 0), LookedRoute(if trims then [] else Copies(RouteEntryOf(ev), n), ev, 0), trims, sqrt);
  }

  lemma RoutesDiffer(lag: nat, n: nat)
    requires lag > HOUR - ROUTE_WINDOW && n >= 10
    ensures AlertsOf(LookedRoute(Copies(RouteEntryOf(LateEvent(lag)), n), LateEvent(lag), 0)) != []
    ensures AlertsOf(LookedRoute([], LateEvent(lag), 0)) == []
  {
    var e := RouteEntryOf(LateEvent(lag));
    CopiesCount(e, n, -ROUTE_WINDOW, IsError());
    AllErrors(n);
    hide Since, Count, Copies, Percent;
  }

  lemma RouteRunShows(lag: nat, rule: Rule, sqrt: real -> real) returns (steps: seq<Step>)
    requires lag > HOUR - ROUTE_WINDOW
    ensures ClockWithin(lag, steps) && OnlyRule(rule, steps) && !TrimmingHidden(steps, sqrt)
  {
    var n := Enough(0.0);
    steps := RouteRun(lag, n);
    assert ClockWithin(lag, steps) && OnlyRule(rule, steps) by { hide LateEvent; }
    hide RouteRun, ClockWithin, OnlyRule, RunFrom, LookedRoute, Copies, AlertsOf, LateEvent;
    RoutesDiffer(lag, n);
    RouteRunAlerts(lag, n, true, sqrt);
    RouteRunAlerts(lag, n, false, sqrt);
  }

  // ----- the equivalence

  /** Every forgetting rule, and every lag the route check cannot bear, has a run
      in the order of the clock, but for the lag, on which trimming shows. */
  lemma ForgettingShows(lag: nat, rule: Rule, sqrt: real -> real) returns (steps: seq<Step>)
    requires lag > HOUR - ROUTE_WINDOW || ForgetsWithin(lag, rule)
    ensures ClockWithin(lag, steps) && OnlyRule(rule, steps)
    ensures RunFrom(START, steps, true, sqrt).alerts != RunFrom(START, steps, false, sqrt).alerts
  {
    hide ClockWithin, OnlyRule, RunFrom;
    if lag > HOUR - ROUTE_WINDOW {
      steps := RouteRunShows(lag, rule, sqrt);
    } else if rule.ruleType == VolumeSpike {
      steps := SpikeRunShows(lag, rule, sqrt);
    } else {
      steps := LateRunShows(lag, rule, sqrt);
    }
  }

  /** The exact condition on a rule and the lag of the readings: trimming at one hour
      is invisible on every run that looks up just this rule, with window accesses
      in the order of the clock up to the lag, exactly when the lag leaves the route
      check its five minutes and the rule does not forget within it. */
  lemma OneHourSufficesIff(lag: nat, rule: Rule, sqrt: real -> real)
    ensures (forall steps :: ClockWithin(lag, steps) && OnlyRule(rule, steps) ==> TrimmingHidden(steps, sqrt)) <==>
            lag <= HOUR - ROUTE_WINDOW && !ForgetsWithin(lag, rule)
  {
    hide RunFrom, ClockWithin, OnlyRule, ForgetsWithin, NoneForgets;
    if lag > HOUR - ROUTE_WINDOW || ForgetsWithin(lag, rule) {
      var steps := ForgettingShows(lag, rule, sqrt);
      assert !TrimmingHidden(steps, sqrt);
    } else {
      forall steps | ClockWithin(lag, steps) && OnlyRule(rule, steps) ensures TrimmingHidden(steps, sqrt) {
        NoneOf(lag, rule, steps);
        DetectorNeedsOneHour(lag, steps, sqrt);
      }
    }
  }

  lemma NoneOf(lag: nat, rule: Rule, steps: seq<Step>)
    requires OnlyRule(rule, steps) && !ForgetsWithin(lag, rule)
    ensures NoneForgets(lag, steps)
  {
  }
}
