/** Laws of whole detector runs: trimming is invisible, and cooldowns space the
    alerts. */
module AnomalyLaws {
  import opened Options
  import opened AnomalyKeys
  import opened VolumeSpike
  import opened Anomaly

  // ----- trimming against remembering everything

  /** The trimmed window is what is left of the full one after dropping leading
      entries older than the horizon. */
  ghost predicate Suffix(full: seq<Entry>, trimmed: seq<Entry>, horizon: int) {
    && |trimmed| <= |full|
    && full[|full| - |trimmed|..] == trimmed
    && forall i :: 0 <= i < |full| - |trimmed| ==> full[i].timestamp < horizon
  }

  lemma {:induction false} SinceAppend(a: seq<Entry>, b: seq<Entry>, t: int)
    ensures Since(a + b, t) == Since(a, t) + Since(b, t)
  {
    if |b| == 0 {
      assert a + b == a;
    } else {
      assert (a + b)[..|a + b| - 1] == a + b[..|b| - 1];
      SinceAppend(a, b[..|b| - 1], t);
    }
  }

  lemma {:induction false} SinceNone(a: seq<Entry>, t: int)
    ensures Since(a, t) == [] <==> forall i :: 0 <= i < |a| ==> a[i].timestamp < t
    ensures forall e :: e in Since(a, t) ==> e.timestamp >= t
  {
    if |a| > 0 { SinceNone(a[..|a| - 1], t); }
  }

  /** A trimmed window answers a lookup like the full one exactly when nothing
      that was dropped is recent enough to be looked up. */
  lemma SinceAgreesIff(dropped: seq<Entry>, trimmed: seq<Entry>, t: int)
    ensures Since(dropped + trimmed, t) == Since(trimmed, t) <==>
            forall i :: 0 <= i < |dropped| ==> dropped[i].timestamp < t
  {
    SinceAppend(dropped, trimmed, t);
    SinceNone(dropped, t);
    if Since(dropped, t) == [] { assert [] + Since(trimmed, t) == Since(trimmed, t); }
  }

  lemma LookupAgrees(full: seq<Entry>, trimmed: seq<Entry>, horizon: int, t: int)
    requires Suffix(full, trimmed, horizon) && horizon <= t
    ensures Since(full, t) == Since(trimmed, t)
  {
    var dropped := full[..|full| - |trimmed|];
    assert full == dropped + trimmed;
    SinceAgreesIff(dropped, trimmed, t);
  }

  lemma {:induction false} TrimSuffix(entries: seq<Entry>, cutoff: int)
    ensures Suffix(entries, Trim(entries, cutoff), cutoff)
  {
    if |entries| > 0 && entries[0].timestamp < cutoff {
      TrimSuffix(entries[1..], cutoff);
    }
  }

  function Later(a: int, b: int): int { if a < b then b else a }

  lemma AddedSuffix(full: seq<Entry>, trimmed: seq<Entry>, horizon: int, e: Entry, cutoff: int)
    requires Suffix(full, trimmed, horizon)
    ensures Suffix(full + [e], Trim(trimmed + [e], cutoff), Later(horizon, cutoff))
  {
    TrimSuffix(trimmed + [e], cutoff);
    SuffixNext(full, trimmed, horizon, e);
    hide Suffix;
    SuffixOfSuffix(full + [e], trimmed + [e], Trim(trimmed + [e], cutoff), horizon, cutoff);
  }

  lemma SuffixNext(full: seq<Entry>, trimmed: seq<Entry>, horizon: int, e: Entry)
    requires Suffix(full, trimmed, horizon)
    ensures Suffix(full + [e], trimmed + [e], horizon)
  {
    assert (full + [e])[|full| - |trimmed|..] == full[|full| - |trimmed|..] + [e];
  }

  lemma SuffixOfSuffix(a: seq<Entry>, b: seq<Entry>, c: seq<Entry>, first: int, second: int)
    requires Suffix(a, b, first) && Suffix(b, c, second)
    ensures Suffix(a, c, Later(first, second))
  {
    var k := |a| - |b|;
    assert a[|a| - |c|..] == a[k..][|b| - |c|..];
    forall i | 0 <= i < |a| - |c| ensures a[i].timestamp < Later(first, second) {
      if i >= k { assert a[i] == b[i - k]; }
    }
  }

  ghost predicate MapsAgree(full: map<string, Track>, trimmed: map<string, Track>, horizon: int) {
    && full.Keys == trimmed.Keys
    && forall key :: key in full ==>
         full[key].last == trimmed[key].last && Suffix(full[key].entries, trimmed[key].entries, horizon)
  }

  ghost predicate Agree(full: State, trimmed: State, horizon: int) {
    && MapsAgree(full.windows, trimmed.windows, horizon)
    && MapsAgree(full.routes, trimmed.routes, horizon)
    && full.cooldown == trimmed.cooldown && full.routeCooldown == trimmed.routeCooldown
    && full.alerts == trimmed.alerts && full.held == trimmed.held
  }

  /** The newest trimming cutoff after a step. */
  function Horizon(horizon: int, step: Step): int {
    match step
    case Add(_, at) => Later(horizon, at - HOUR)
    case AddRoute(_, at) => Later(horizon, at - HOUR)
    case _ => horizon
  }

  /** A rule that can reach no verdict whatever the window holds: it is not looked
      up on events, or asks for more than all of them to be errors. */
  predicate Blind(rule: Rule) {
    rule.ruleType == SilentService || rule.ruleType == ErrorRateByRoute ||
    (rule.ruleType == ErrorRate && rule.threshold > 100.0)
  }

  /** The earliest entry that can matter to a rule: an entry of exactly an hour is
      looked up by the volume spike, but counted in none of its sixty minutes. */
  function CountsFrom(rule: Rule, now: int): int {
    if rule.ruleType == VolumeSpike then now - HOUR + 1 else LookupFrom(rule, now)
  }

  /** A look needs nothing older than anything that was trimmed. */
  predicate Fresh(horizon: int, step: Step) {
    match step
    case Look(_, _, rule, now) => Blind(rule) || horizon <= CountsFrom(rule, now)
    case LookRoute(_, _, now) => horizon <= now - ROUTE_WINDOW
    case _ => true
  }

  lemma {:induction false} CountAtMost(p: Entry -> bool, entries: seq<Entry>)
    ensures Count(p, entries) <= |entries|
  {
    if |entries| > 0 { CountAtMost(p, entries[..|entries| - 1]); }
  }

  lemma PercentAtMost(errors: nat, total: nat)
    requires 0 < total && errors <= total
    ensures Percent(errors, total) <= 100.0
  {
    assert errors as real / total as real <= 1.0;
  }

  lemma BlindSeesNothing(entries: seq<Entry>, ev: Event, rule: Rule, now: int, sqrt: real -> real)
    requires Blind(rule)
    ensures Looked(entries, ev, rule, now, sqrt) == None
  {
    if rule.ruleType == ErrorRate {
      var recent := Since(entries, LookupFrom(rule, now));
      CountAtMost(IsError(), recent);
      if |recent| >= 10 { PercentAtMost(Count(IsError(), recent), |recent|); }
    }
  }

  lemma MapsAgreeAdd(full: map<string, Track>, trimmed: map<string, Track>, horizon: int,
                     key: string, e: Entry, now: int)
    requires MapsAgree(full, trimmed, horizon)
    ensures MapsAgree(full[key := Added(Get(full, key), e, now, false)],
                      trimmed[key := Added(Get(trimmed, key), e, now, true)], Later(horizon, now - HOUR))
  {
    AddedSuffix(Get(full, key).entries, Get(trimmed, key).entries, horizon, e, now - HOUR);
  }

  lemma {:induction false} InMinuteAppend(now: int, a: seq<int>, b: seq<int>, i: int)
    ensures InMinute(now, a + b, i) == InMinute(now, a, i) + InMinute(now, b, i)
  {
    hide WholeMinutes;
    if |b| == 0 {
      assert a + b == a;
    } else {
      assert (a + b)[..|a + b| - 1] == a + b[..|b| - 1];
      InMinuteAppend(now, a, b[..|b| - 1], i);
    }
  }

  lemma {:induction false} InMinuteNone(now: int, times: seq<int>, i: int)
    requires 0 <= i < 60 && forall j :: 0 <= j < |times| ==> !Counted(now, times[j])
    ensures InMinute(now, times, i) == 0
  {
    if |times| > 0 {
      InMinuteNone(now, times[..|times| - 1], i);
      assert !Counted(now, times[|times| - 1]);
    }
  }

  /** Entries too old to be counted change no bucket. */
  lemma BucketsIgnore(now: int, a: seq<int>, b: seq<int>)
    requires forall j :: 0 <= j < |a| ==> !Counted(now, a[j])
    ensures Buckets(now, a + b) == Buckets(now, b)
  {
    hide InMinute, Counted;
    forall i | 0 <= i < 60 ensures InMinute(now, a + b, i) == InMinute(now, b, i) {
      InMinuteAppend(now, a, b, i);
      InMinuteNone(now, a, i);
    }
  }

  lemma {:induction false} SinceBelow(a: seq<Entry>, t: int, horizon: int)
    requires forall i :: 0 <= i < |a| ==> a[i].timestamp < horizon
    ensures forall i :: 0 <= i < |Since(a, t)| ==> Since(a, t)[i].timestamp < horizon
  {
    if |a| > 0 { SinceBelow(a[..|a| - 1], t, horizon); }
  }

  lemma BucketsAgree(full: seq<Entry>, trimmed: seq<Entry>, horizon: int, now: int)
    requires Suffix(full, trimmed, horizon) && horizon <= now - HOUR + 1
    ensures Buckets(now, Timestamps(Since(full, now - HOUR))) == Buckets(now, Timestamps(Since(trimmed, now - HOUR)))
  {
    var dropped, t := full[..|full| - |trimmed|], now - HOUR;
    assert full == dropped + trimmed;
    SinceAppend(dropped, trimmed, t);
    SinceBelow(dropped, t, horizon);
    var gone := Since(dropped, t);
    hide Since, Buckets, Counted, Suffix;
    forall j | 0 <= j < |gone| ensures !Counted(now, Timestamps(gone)[j]) { CountedMeans(now, gone[j].timestamp); }
    BucketsIgnore(now, Timestamps(gone), Timestamps(Since(trimmed, t)));
    assert Timestamps(gone + Since(trimmed, t)) == Timestamps(gone) + Timestamps(Since(trimmed, t));
  }

  lemma SpikeAgrees(full: seq<Entry>, trimmed: seq<Entry>, ev: Event, rule: Rule, now: int, sqrt: real -> real)
    requires rule.ruleType == VolumeSpike
    requires Buckets(now, Timestamps(Since(full, now - HOUR))) == Buckets(now, Timestamps(Since(trimmed, now - HOUR)))
    ensures Looked(full, ev, rule, now, sqrt) == Looked(trimmed, ev, rule, now, sqrt)
  {
    hide Since, Timestamps, Buckets, Fires, MeanOf;
  }

  lemma LookedAgrees(full: seq<Entry>, trimmed: seq<Entry>, horizon: int, ev: Event, rule: Rule, now: int, sqrt: real -> real)
    requires Suffix(full, trimmed, horizon) && (Blind(rule) || horizon <= CountsFrom(rule, now))
    ensures Looked(full, ev, rule, now, sqrt) == Looked(trimmed, ev, rule, now, sqrt)
  {
    if Blind(rule) {
      BlindSeesNothing(full, ev, rule, now, sqrt);
      BlindSeesNothing(trimmed, ev, rule, now, sqrt);
    } else if rule.ruleType == VolumeSpike {
      BucketsAgree(full, trimmed, horizon, now);
      hide *;
      SpikeAgrees(full, trimmed, ev, rule, now, sqrt);
    } else {
      LookupAgrees(full, trimmed, horizon, LookupFrom(rule, now));
      hide Verdict, LookupFrom, Since, Suffix;
    }
  }

  lemma HoldAgrees(full: State, trimmed: State, horizon: int, w: nat, h: Option<Held>)
    requires Agree(full, trimmed, horizon)
    ensures Agree(Hold(full, w, h), Hold(trimmed, w, h), horizon)
  {
    hide MapsAgree;
  }

  lemma LookAgrees(full: State, trimmed: State, horizon: int, w: nat, ev: Event, rule: Rule, now: int, sqrt: real -> real)
    requires Agree(full, trimmed, horizon) && Fresh(horizon, Look(w, ev, rule, now))
    ensures Agree(Apply(full, Look(w, ev, rule, now), false, sqrt), Apply(trimmed, Look(w, ev, rule, now), true, sqrt), horizon)
  {
    var key := WindowKey(ev.project, ev.service);
    assert Suffix(Get(full.windows, key).entries, Get(trimmed.windows, key).entries, horizon);
    hide Agree, MapsAgree, Looked, Hold, WindowKey, Suffix, CountsFrom, Blind;
    LookedAgrees(Get(full.windows, key).entries, Get(trimmed.windows, key).entries, horizon, ev, rule, now, sqrt);
    HoldAgrees(full, trimmed, horizon, w, Looked(Get(full.windows, key).entries, ev, rule, now, sqrt));
  }

  lemma LookRouteAgrees(full: State, trimmed: State, horizon: int, w: nat, ev: Event, now: int, sqrt: real -> real)
    requires Agree(full, trimmed, horizon) && Fresh(horizon, LookRoute(w, ev, now))
    ensures Agree(Apply(full, LookRoute(w, ev, now), false, sqrt), Apply(trimmed, LookRoute(w, ev, now), true, sqrt), horizon)
  {
    var key := RouteKey(ev.project, ev.path, ev.verb);
    assert Suffix(Get(full.routes, key).entries, Get(trimmed.routes, key).entries, horizon);
    hide Agree, MapsAgree, LookedRoute, Hold, RouteKey, Suffix;
    LookedRouteAgrees(Get(full.routes, key).entries, Get(trimmed.routes, key).entries, horizon, ev, now);
    HoldAgrees(full, trimmed, horizon, w, LookedRoute(Get(full.routes, key).entries, ev, now));
  }

  lemma LookedRouteAgrees(full: seq<Entry>, trimmed: seq<Entry>, horizon: int, ev: Event, now: int)
    requires Suffix(full, trimmed, horizon) && horizon <= now - ROUTE_WINDOW
    ensures LookedRoute(full, ev, now) == LookedRoute(trimmed, ev, now)
  {
    LookupAgrees(full, trimmed, horizon, now - ROUTE_WINDOW);
    hide RouteVerdictOf;
  }

  lemma ReadLastAgrees(full: State, trimmed: State, horizon: int, w: nat, key: string, sqrt: real -> real)
    requires Agree(full, trimmed, horizon)
    ensures Agree(Apply(full, ReadLast(w, key), false, sqrt), Apply(trimmed, ReadLast(w, key), true, sqrt), horizon)
  {
    assert Get(full.windows, key).last == Get(trimmed.windows, key).last;
    hide MapsAgree;
  }

  lemma FireRuleAgrees(full: State, trimmed: State, horizon: int, project: string, service: string,
                       environment: string, rt: RuleType, details: Details, check: int, stamp: int)
    requires Agree(full, trimmed, horizon)
    ensures Agree(FireRule(full, project, service, environment, rt, details, check, stamp),
                  FireRule(trimmed, project, service, environment, rt, details, check, stamp), horizon)
  {
    hide MapsAgree, CooldownKey;
  }

  lemma FireRouteAgrees(full: State, trimmed: State, horizon: int, ev: Event, details: Details, check: int, stamp: int)
    requires Agree(full, trimmed, horizon)
    ensures Agree(FireRoute(full, ev, details, check, stamp), FireRoute(trimmed, ev, details, check, stamp), horizon)
  {
    hide MapsAgree, RouteKey;
  }

  lemma FireHeldAgrees(full: State, trimmed: State, horizon: int, h: Held, check: int, stamp: int)
    requires Agree(full, trimmed, horizon)
    ensures Agree(FireHeld(full, h, check, stamp), FireHeld(trimmed, h, check, stamp), horizon)
  {
    hide Agree, FireRule, FireRoute;
    match h
    case RuleVerdict(project, service, environment, rt, details) =>
      FireRuleAgrees(full, trimmed, horizon, project, service, environment, rt, details, check, stamp);
    case RouteVerdict(ev, details) => FireRouteAgrees(full, trimmed, horizon, ev, details, check, stamp);
    case LastArrival(_, _) =>
  }

  /** Firing looks at no window, so it needs nothing to be fresh. */
  lemma FiringAgrees(full: State, trimmed: State, horizon: int, w: nat, check: int, stamp: int, sqrt: real -> real)
    requires Agree(full, trimmed, horizon)
    ensures Agree(Apply(full, Fire(w, check, stamp), false, sqrt), Apply(trimmed, Fire(w, check, stamp), true, sqrt), horizon)
  {
    assert full.held == trimmed.held;
    hide Agree, FireHeld, Hold;
    if w in full.held {
      FireHeldAgrees(full, trimmed, horizon, full.held[w], check, stamp);
      HoldAgrees(FireHeld(full, full.held[w], check, stamp), FireHeld(trimmed, full.held[w], check, stamp), horizon, w, None);
    }
  }

  lemma SilentAgrees(full: State, trimmed: State, horizon: int, step: Step, sqrt: real -> real)
    requires Agree(full, trimmed, horizon) && step.Silent?
    ensures Agree(Apply(full, step, false, sqrt), Apply(trimmed, step, true, sqrt), horizon)
  {
    assert full.held == trimmed.held;
    hide Agree, FireRule, SilentTooLong;
    if step.w in full.held {
      var h := full.held[step.w];
      if h.LastArrival? && ':' in h.key {
        FireRuleAgrees(full, trimmed, horizon, ProjectOf(h.key), ServiceOf(h.key), "unknown", SilentService, Silence(h.last),
                       step.check, step.stamp);
      }
    }
  }

  lemma DoneAgrees(full: State, trimmed: State, horizon: int, w: nat, sqrt: real -> real)
    requires Agree(full, trimmed, horizon)
    ensures Agree(Apply(full, Done(w), false, sqrt), Apply(trimmed, Done(w), true, sqrt), horizon)
  {
    hide Agree;
    HoldAgrees(full, trimmed, horizon, w, None);
  }

  lemma AddAgrees(full: State, trimmed: State, horizon: int, ev: Event, at: int, sqrt: real -> real)
    requires Agree(full, trimmed, horizon)
    ensures Agree(Apply(full, Add(ev, at), false, sqrt), Apply(trimmed, Add(ev, at), true, sqrt), Later(horizon, at - HOUR))
  {
    hide Added, MapsAgree, WindowKey;
    MapsAgreeAdd(full.windows, trimmed.windows, horizon, WindowKey(ev.project, ev.service), EntryOf(ev), at);
    MapsAgreeLater(full.routes, trimmed.routes, horizon, Later(horizon, at - HOUR));
  }

  lemma AddRouteAgrees(full: State, trimmed: State, horizon: int, ev: Event, at: int, sqrt: real -> real)
    requires Agree(full, trimmed, horizon)
    ensures Agree(Apply(full, AddRoute(ev, at), false, sqrt), Apply(trimmed, AddRoute(ev, at), true, sqrt), Later(horizon, at - HOUR))
  {
    hide Added, MapsAgree, RouteKey;
    MapsAgreeAdd(full.routes, trimmed.routes, horizon, RouteKey(ev.project, ev.path, ev.verb), RouteEntryOf(ev), at);
    MapsAgreeLater(full.windows, trimmed.windows, horizon, Later(horizon, at - HOUR));
  }

  lemma MapsAgreeLater(full: map<string, Track>, trimmed: map<string, Track>, horizon: int, later: int)
    requires MapsAgree(full, trimmed, horizon) && horizon <= later
    ensures MapsAgree(full, trimmed, later)
  {
  }

  lemma ApplyAgrees(full: State, trimmed: State, horizon: int, step: Step, sqrt: real -> real)
    requires Agree(full, trimmed, horizon) && Fresh(horizon, step)
    ensures Agree(Apply(full, step, false, sqrt), Apply(trimmed, step, true, sqrt), Horizon(horizon, step))
  {
    hide Apply, Agree;
    match step
    case Add(ev, at) => AddAgrees(full, trimmed, horizon, ev, at, sqrt);
    case AddRoute(ev, at) => AddRouteAgrees(full, trimmed, horizon, ev, at, sqrt);
    case Look(w, ev, rule, now) => LookAgrees(full, trimmed, horizon, w, ev, rule, now, sqrt);
    case LookRoute(w, ev, now) => LookRouteAgrees(full, trimmed, horizon, w, ev, now, sqrt);
    case ReadLast(w, key) => ReadLastAgrees(full, trimmed, horizon, w, key, sqrt);
    case Fire(w, check, stamp) => FiringAgrees(full, trimmed, horizon, w, check, stamp, sqrt);
    case Silent(_, _, _, _, _) => SilentAgrees(full, trimmed, horizon, step, sqrt);
    case Done(w) => DoneAgrees(full, trimmed, horizon, w, sqrt);
  }

  function HorizonOf(start: int, steps: seq<Step>): int {
    if |steps| == 0 then start else Horizon(HorizonOf(start, steps[..|steps| - 1]), steps[|steps| - 1])
  }

  predicate AllFresh(start: int, steps: seq<Step>) {
    |steps| == 0 ||
    (AllFresh(start, steps[..|steps| - 1]) && Fresh(HorizonOf(start, steps[..|steps| - 1]), steps[|steps| - 1]))
  }

  /** Trace refinement: over every sequence of steps whose looks are fresh, the
      detector that trims its windows emits the alerts of one that does not. */
  lemma {:induction false} TrimmingIsInvisible(start: int, steps: seq<Step>, sqrt: real -> real)
    requires AllFresh(start, steps)
    ensures Agree(RunFrom(START, steps, false, sqrt), RunFrom(START, steps, true, sqrt), HorizonOf(start, steps))
    ensures RunFrom(START, steps, false, sqrt).alerts == RunFrom(START, steps, true, sqrt).alerts
  {
    if |steps| > 0 {
      hide Apply;
      var front := steps[..|steps| - 1];
      TrimmingIsInvisible(start, front, sqrt);
      ApplyAgrees(RunFrom(START, front, false, sqrt), RunFrom(START, front, true, sqrt),
                  HorizonOf(start, front), steps[|steps| - 1], sqrt);
    }
  }

  /** The clock reading a window access depends on, if the step makes one. */
  function AccessTime(step: Step): Option<int> {
    match step
    case Add(_, at) => Some(at)
    case AddRoute(_, at) => Some(at)
    case Look(_, _, _, now) => Some(now)
    case LookRoute(_, _, now) => Some(now)
    case _ => None
  }

  /** Windows are accessed in the order of the clock, but for readings at most
      `lag` behind one already used: a caller reads the clock before it takes the
      lock.  Firing may happen whenever. */
  ghost predicate ClockWithin(lag: nat, steps: seq<Step>) {
    forall i, j :: 0 <= i < j < |steps| && AccessTime(steps[i]).Some? && AccessTime(steps[j]).Some? ==>
                     AccessTime(steps[i]).value - lag <= AccessTime(steps[j]).value
  }

  /** A rule that can need entries trimmed already when readings lag: the volume
      spike from two nanoseconds on, another that decides on events as soon as its
      window and the lag exceed an hour. */
  predicate ForgetsWithin(lag: nat, rule: Rule) {
    !Blind(rule) && if rule.ruleType == VolumeSpike then lag > 1 else rule.windowSeconds * SECOND + lag > HOUR
  }

  ghost predicate NoneForgets(lag: nat, steps: seq<Step>) {
    forall i :: 0 <= i < |steps| && steps[i].Look? ==> !ForgetsWithin(lag, steps[i].rule)
  }

  ghost predicate StartsBefore(start: int, steps: seq<Step>) {
    forall i :: 0 <= i < |steps| && AccessTime(steps[i]).Some? ==> start <= AccessTime(steps[i]).value - HOUR
  }

  /** With readings that lag at most so much, and no rule that forgets within the
      lag, every look is fresh, whatever the order of the event timestamps. */
  lemma {:induction false} ClockMakesFresh(lag: nat, start: int, steps: seq<Step>)
    requires lag <= HOUR - ROUTE_WINDOW
    requires ClockWithin(lag, steps) && NoneForgets(lag, steps) && StartsBefore(start, steps)
    ensures AllFresh(start, steps)
    ensures HorizonOf(start, steps) == start ||
            exists i :: 0 <= i < |steps| && AccessTime(steps[i]).Some? && HorizonOf(start, steps) == AccessTime(steps[i]).value - HOUR
  {
    if |steps| > 0 {
      var front, last := steps[..|steps| - 1], steps[|steps| - 1];
      assert forall i :: 0 <= i < |front| ==> front[i] == steps[i];
      ClockMakesFresh(lag, start, front);
      assert last == steps[|steps| - 1];
      var h := HorizonOf(start, front);
      if h != start {
        var i :| 0 <= i < |front| && AccessTime(front[i]).Some? && h == AccessTime(front[i]).value - HOUR;
        assert front[i] == steps[i];
      }
      assert AccessTime(last).Some? ==> h - lag <= AccessTime(last).value - HOUR;
      if last.Look? && !Blind(last.rule) { ShortLookup(lag, last.rule, last.now); }
    }
  }

  lemma ShortLookup(lag: nat, rule: Rule, now: int)
    requires !ForgetsWithin(lag, rule) && !Blind(rule)
    ensures now + lag - HOUR <= CountsFrom(rule, now)
  {
  }

  /** A time before which nothing was trimmed. */
  lemma {:induction false} EarliestAccess(steps: seq<Step>) returns (start: int)
    ensures StartsBefore(start, steps)
  {
    if |steps| == 0 {
      start := 0;
    } else {
      var front, last := steps[..|steps| - 1], steps[|steps| - 1];
      start := EarliestAccess(front);
      assert forall i :: 0 <= i < |front| ==> front[i] == steps[i];
      if AccessTime(last).Some? && AccessTime(last).value - HOUR < start { start := AccessTime(last).value - HOUR; }
    }
  }

  /** So the detector with hour-long windows emits exactly the alerts of one with
      the full history, as long as no rule forgets within the lag of its readings. */
  lemma DetectorNeedsOneHour(lag: nat, steps: seq<Step>, sqrt: real -> real)
    requires lag <= HOUR - ROUTE_WINDOW && ClockWithin(lag, steps) && NoneForgets(lag, steps)
    ensures RunFrom(START, steps, true, sqrt).alerts == RunFrom(START, steps, false, sqrt).alerts
  {
    hide *;
    var start := EarliestAccess(steps);
    ClockMakesFresh(lag, start, steps);
    TrimmingIsInvisible(start, steps, sqrt);
  }

  // ----- cooldown

  /** What an alert's cooldown is kept under. */
  datatype Slot = Project(key: string) | Route(key: string)

  function SlotOf(a: Alert): Slot {
    if a.details.RouteRate? then Route(RouteKey(a.project, a.details.path, a.details.verb))
    else Project(CooldownKey(a.project, a.ruleType))
  }

  function Gap(slot: Slot): int { if slot.Route? then ROUTE_COOLDOWN else COOLDOWN }

  function Stamp(st: State, slot: Slot): Option<int> {
    match slot
    case Project(key) => if key in st.cooldown then Some(st.cooldown[key]) else None
    case Route(key) => if key in st.routeCooldown then Some(st.routeCooldown[key]) else None
  }

  ghost predicate Spaced(alerts: seq<Alert>) {
    forall i, j :: 0 <= i < j < |alerts| && SlotOf(alerts[i]) == SlotOf(alerts[j]) ==>
                     alerts[j].at - alerts[i].at >= Gap(SlotOf(alerts[i]))
  }

  /** A held verdict is of its rule's kind. */
  ghost predicate HeldOk(h: Held) {
    match h
    case RuleVerdict(_, _, _, rt, details) => rt != ErrorRateByRoute && !details.RouteRate?
    case RouteVerdict(ev, details) => details.RouteRate? && details.path == ev.path && details.verb == ev.verb
    case LastArrival(_, _) => true
  }

  /** Every stamp is the time of the latest alert of its slot. */
  ghost predicate CooldownInv(st: State) {
    && Spaced(st.alerts)
    && (forall i :: 0 <= i < |st.alerts| ==> (st.alerts[i].details.RouteRate? <==> st.alerts[i].ruleType == ErrorRateByRoute))
    && (forall i :: 0 <= i < |st.alerts| ==>
          var s := Stamp(st, SlotOf(st.alerts[i])); s.Some? && st.alerts[i].at <= s.value)
    && (forall slot :: Stamp(st, slot).Some? ==>
          exists i :: 0 <= i < |st.alerts| && SlotOf(st.alerts[i]) == slot && st.alerts[i].at == Stamp(st, slot).value)
  }

  ghost predicate AllHeldOk(st: State) { forall w :: w in st.held ==> HeldOk(st.held[w]) }

  ghost predicate OrderedReading(step: Step) {
    match step
    case Fire(_, check, stamp) => check <= stamp
    case Silent(_, _, _, check, stamp) => check <= stamp
    case _ => true
  }

  ghost predicate Recorded(st: State, st': State, a: Alert, check: int) {
    && check <= a.at
    && (a.details.RouteRate? <==> a.ruleType == ErrorRateByRoute)
    && (Stamp(st, SlotOf(a)).Some? ==> check - Stamp(st, SlotOf(a)).value >= Gap(SlotOf(a)))
    && st'.alerts == st.alerts + [a] && Stamp(st', SlotOf(a)) == Some(a.at)
    && forall slot :: slot != SlotOf(a) ==> Stamp(st', slot) == Stamp(st, slot)
  }

  lemma RecordKeepsInv(st: State, st': State, a: Alert, check: int)
    requires CooldownInv(st) && Recorded(st, st', a, check)
    ensures CooldownInv(st')
  {
    hide SlotOf, Stamp, Gap;
    RecordKeepsSpacing(st, st', a, check);
    forall slot | Stamp(st', slot).Some?
      ensures exists i :: 0 <= i < |st'.alerts| && SlotOf(st'.alerts[i]) == slot && st'.alerts[i].at == Stamp(st', slot).value
    {
      if slot == SlotOf(a) {
        assert st'.alerts[|st.alerts|] == a;
      } else {
        var i :| 0 <= i < |st.alerts| && SlotOf(st.alerts[i]) == slot && st.alerts[i].at == Stamp(st, slot).value;
        assert st'.alerts[i] == st.alerts[i];
      }
    }
  }

  lemma RecordKeepsSpacing(st: State, st': State, a: Alert, check: int)
    requires CooldownInv(st) && Recorded(st, st', a, check)
    ensures Spaced(st'.alerts)
    ensures forall i :: 0 <= i < |st'.alerts| ==>
              var s := Stamp(st', SlotOf(st'.alerts[i])); s.Some? && st'.alerts[i].at <= s.value
  {
    assert Gap(SlotOf(a)) >= 0;
    hide SlotOf, Stamp, Gap;
    forall i | 0 <= i < |st'.alerts|
      ensures var s := Stamp(st', SlotOf(st'.alerts[i])); s.Some? && st'.alerts[i].at <= s.value
    {
      if i < |st.alerts| { assert st'.alerts[i] == st.alerts[i]; }
    }
  }

  lemma FireKeepsInv(st: State, project: string, service: string, environment: string, rt: RuleType,
                     details: Details, check: int, stamp: int)
    requires CooldownInv(st) && check <= stamp && !details.RouteRate? && rt != ErrorRateByRoute
    ensures CooldownInv(FireRule(st, project, service, environment, rt, details, check, stamp))
  {
    var st' := FireRule(st, project, service, environment, rt, details, check, stamp);
    if !Cooling(st.cooldown, CooldownKey(project, rt), check, COOLDOWN) {
      hide CooldownInv, CooldownKey;
      RecordKeepsInv(st, st', Alert(project, service, environment, rt, details, stamp), check);
    }
  }

  lemma FireRouteKeepsInv(st: State, ev: Event, details: Details, check: int, stamp: int)
    requires CooldownInv(st) && check <= stamp
    requires details.RouteRate? && details.path == ev.path && details.verb == ev.verb
    ensures CooldownInv(FireRoute(st, ev, details, check, stamp))
  {
    var st' := FireRoute(st, ev, details, check, stamp);
    if !Cooling(st.routeCooldown, RouteKey(ev.project, ev.path, ev.verb), check, ROUTE_COOLDOWN) {
      hide CooldownInv, RouteKey;
      RecordKeepsInv(st, st', Alert(ev.project, ev.service, ev.environment, ErrorRateByRoute, details, stamp), check);
    }
  }

  lemma VerdictKind(entries: seq<Entry>, ev: Event, rule: Rule, now: int, sqrt: real -> real)
    ensures var h := Looked(entries, ev, rule, now, sqrt); h.Some? ==> HeldOk(h.value)
  {
  }

  lemma FireStepKeepsCooldown(st: State, w: nat, check: int, stamp: int, trims: bool, sqrt: real -> real)
    requires CooldownInv(st) && AllHeldOk(st) && check <= stamp
    ensures CooldownInv(Apply(st, Fire(w, check, stamp), trims, sqrt))
  {
    if w in st.held {
      var fired := FireHeld(st, st.held[w], check, stamp);
      assert HeldOk(st.held[w]);
      hide CooldownInv, FireRule, FireRoute, AllHeldOk, Looked, LookedRoute, LastOf;
      match st.held[w] {
        case RuleVerdict(project, service, environment, rt, details) =>
          FireKeepsInv(st, project, service, environment, rt, details, check, stamp);
        case RouteVerdict(ev, details) => FireRouteKeepsInv(st, ev, details, check, stamp);
        case LastArrival(_, _) =>
      }
      SameCooldown(fired, Hold(fired, w, None));
    }
  }

  lemma SilentKeepsCooldown(st: State, step: Step, trims: bool, sqrt: real -> real)
    requires CooldownInv(st) && step.Silent? && OrderedReading(step)
    ensures CooldownInv(Apply(st, step, trims, sqrt))
  {
    hide CooldownInv, FireRule, SilentTooLong;
    if step.w in st.held {
      var h := st.held[step.w];
      if h.LastArrival? && ':' in h.key {
        FireKeepsInv(st, ProjectOf(h.key), ServiceOf(h.key), "unknown", SilentService, Silence(h.last), step.check, step.stamp);
      }
    }
  }

  lemma ApplyKeepsCooldown(st: State, step: Step, trims: bool, sqrt: real -> real)
    requires CooldownInv(st) && AllHeldOk(st) && OrderedReading(step)
    ensures CooldownInv(Apply(st, step, trims, sqrt))
  {
    hide CooldownInv, AllHeldOk, Looked, LookedRoute, LastOf;
    match step
    case Fire(w, check, stamp) => hide Apply; FireStepKeepsCooldown(st, w, check, stamp, trims, sqrt);
    case Silent(_, _, _, _, _) => hide Apply; SilentKeepsCooldown(st, step, trims, sqrt);
    case _ => SameCooldown(st, Apply(st, step, trims, sqrt));
  }

  lemma ApplyKeepsHeld(st: State, step: Step, trims: bool, sqrt: real -> real)
    requires AllHeldOk(st)
    ensures AllHeldOk(Apply(st, step, trims, sqrt))
  {
    if step.Look? {
      VerdictKind(Get(st.windows, WindowKey(step.event.project, step.event.service)).entries, step.event, step.rule, step.now, sqrt);
    }
    hide Looked, FireRule, Verdict;
  }

  lemma SameCooldown(st: State, st': State)
    requires CooldownInv(st)
    requires st'.alerts == st.alerts && st'.cooldown == st.cooldown && st'.routeCooldown == st.routeCooldown
    ensures CooldownInv(st')
  {
    assert forall slot :: Stamp(st', slot) == Stamp(st, slot);
  }

  /** Over any interleaving of any callers, recorded alerts of one project and
      rule are at least five minutes apart, and of one route ten. */
  lemma {:induction false} AlertsAreSpaced(steps: seq<Step>, trims: bool, sqrt: real -> real)
    requires forall i :: 0 <= i < |steps| ==> OrderedReading(steps[i])
    ensures CooldownInv(RunFrom(START, steps, trims, sqrt)) && AllHeldOk(RunFrom(START, steps, trims, sqrt))
    ensures Spaced(RunFrom(START, steps, trims, sqrt).alerts)
  {
    if |steps| > 0 {
      var front, step := steps[..|steps| - 1], steps[|steps| - 1];
      AlertsAreSpaced(front, trims, sqrt);
      assert OrderedReading(step);
      hide Apply, AllHeldOk, OrderedReading;
      ApplyKeepsCooldown(RunFrom(START, front, trims, sqrt), step, trims, sqrt);
      ApplyKeepsHeld(RunFrom(START, front, trims, sqrt), step, trims, sqrt);
    }
  }

  /** In nanoseconds, with no slot named. */
  lemma AlertTimes(steps: seq<Step>, trims: bool, sqrt: real -> real, i: nat, j: nat)
    requires forall i :: 0 <= i < |steps| ==> OrderedReading(steps[i])
    requires i < j < |RunFrom(START, steps, trims, sqrt).alerts|
    ensures var (a, b) := (RunFrom(START, steps, trims, sqrt).alerts[i], RunFrom(START, steps, trims, sqrt).alerts[j]);
            && (a.ruleType == ErrorRateByRoute <==> a.details.RouteRate?)
            && (a.project == b.project && a.ruleType == b.ruleType != ErrorRateByRoute ==> b.at - a.at >= 300_000_000_000)
            && (a.details.RouteRate? && b.details.RouteRate? ==>
                  a.project == b.project && a.details.path == b.details.path && a.details.verb == b.details.verb ==>
                    b.at - a.at >= 600_000_000_000)
  {
    AlertsAreSpaced(steps, trims, sqrt);
    var alerts := RunFrom(START, steps, trims, sqrt).alerts;
    assert alerts[j].details.RouteRate? <==> alerts[j].ruleType == ErrorRateByRoute;
    hide RunFrom, Stamp, AllHeldOk, RouteKey, CooldownKey;
  }

  /** The alerts of one slot stamped within [from, from + span]. */
  function Within(alerts: seq<Alert>, slot: Slot, from: int, span: int): seq<Alert> {
    if |alerts| == 0 then []
    else
      var a := alerts[|alerts| - 1];
      Within(alerts[..|alerts| - 1], slot, from, span) +
      (if SlotOf(a) == slot && from <= a.at <= from + span then [a] else [])
  }

  lemma {:induction false} WithinMembers(alerts: seq<Alert>, slot: Slot, from: int, span: int)
    ensures forall a :: a in Within(alerts, slot, from, span) ==>
              a in alerts && SlotOf(a) == slot && from <= a.at <= from + span
  {
    if |alerts| > 0 {
      WithinMembers(alerts[..|alerts| - 1], slot, from, span);
      assert alerts == alerts[..|alerts| - 1] + [alerts[|alerts| - 1]];
    }
  }

  ghost predicate SpacedBy(w: seq<Alert>, g: int) {
    forall i :: 0 < i < |w| ==> w[i].at - w[i - 1].at >= g
  }

  lemma {:induction false} WithinSpaced(alerts: seq<Alert>, slot: Slot, from: int, span: int)
    requires Spaced(alerts)
    ensures SpacedBy(Within(alerts, slot, from, span), Gap(slot))
  {
    if |alerts| > 0 {
      hide SlotOf, Gap, SpacedBy;
      var front, a := alerts[..|alerts| - 1], alerts[|alerts| - 1];
      var w := Within(front, slot, from, span);
      WithinSpaced(front, slot, from, span);
      if SlotOf(a) == slot && from <= a.at <= from + span {
        if |w| > 0 { LastApart(alerts, slot, from, span, w[|w| - 1]); }
        SpacedBySnoc(w, a, Gap(slot));
      }
    }
  }

  lemma SpacedBySnoc(w: seq<Alert>, a: Alert, g: int)
    requires SpacedBy(w, g) && (|w| > 0 ==> a.at - w[|w| - 1].at >= g)
    ensures SpacedBy(w + [a], g)
  {
  }

  lemma {:induction false} SpanOfSpaced(w: seq<Alert>, g: int)
    requires |w| > 0 && SpacedBy(w, g)
    ensures w[|w| - 1].at - w[0].at >= (|w| - 1) * g
  {
    if |w| > 1 {
      SpanOfSpaced(w[..|w| - 1], g);
      Steps(|w| - 1, g);
    }
  }

  lemma LastApart(alerts: seq<Alert>, slot: Slot, from: int, span: int, b: Alert)
    requires Spaced(alerts) && |alerts| > 0 && SlotOf(alerts[|alerts| - 1]) == slot
    requires b in Within(alerts[..|alerts| - 1], slot, from, span)
    ensures alerts[|alerts| - 1].at - b.at >= Gap(slot)
  {
    var front := alerts[..|alerts| - 1];
    WithinMembers(front, slot, from, span);
    var i :| 0 <= i < |front| && front[i] == b;
    assert alerts[i] == b;
  }

  lemma Steps(n: int, g: int)
    ensures n * g == (n - 1) * g + g
  {
  }

  /** So any span of time holds at most one more than it holds cooldowns. */
  lemma AlertsPerSpan(alerts: seq<Alert>, slot: Slot, from: int, span: nat)
    requires Spaced(alerts)
    ensures |Within(alerts, slot, from, span)| <= span / Gap(slot) + 1
  {
    assert Gap(slot) > 0;
    hide Within, SpacedBy, Spaced, Gap, SlotOf;
    WithinMembers(alerts, slot, from, span);
    WithinSpaced(alerts, slot, from, span);
    var w := Within(alerts, slot, from, span);
    if |w| > 0 {
      assert w[0] in w && w[|w| - 1] in w;
      SpanOfSpaced(w, Gap(slot));
      AtMost(|w| - 1, Gap(slot), span);
    }
  }

  lemma TimesMonotone(a: int, b: int, g: int)
    requires a <= b && g >= 0
    ensures a * g <= b * g
  {
  }

  lemma AtMost(n: nat, g: int, span: nat)
    requires g > 0 && n * g <= span
    ensures n <= span / g
  {
    var k := span / g;
    assert span < (k + 1) * g;
    if n >= k + 1 { TimesMonotone(k + 1, n, g); }
  }

  /** A verdict is dropped exactly when an earlier alert of the same project and
      rule is less than a cooldown old. */
  lemma SuppressedIffRecent(st: State, project: string, service: string, environment: string, rt: RuleType,
                            details: Details, check: int, stamp: int)
    requires CooldownInv(st) && rt != ErrorRateByRoute
    ensures FireRule(st, project, service, environment, rt, details, check, stamp) == st <==>
            exists i :: 0 <= i < |st.alerts| && st.alerts[i].project == project && st.alerts[i].ruleType == rt &&
                        check - st.alerts[i].at < COOLDOWN
  {
    var key := CooldownKey(project, rt);
    assert FireRule(st, project, service, environment, rt, details, check, stamp) == st <==> Cooling(st.cooldown, key, check, COOLDOWN) by {
      if !Cooling(st.cooldown, key, check, COOLDOWN) {
        assert |FireRule(st, project, service, environment, rt, details, check, stamp).alerts| == |st.alerts| + 1;
      }
    }
    assert Stamp(st, Project(key)) == if key in st.cooldown then Some(st.cooldown[key]) else None;
    forall i | 0 <= i < |st.alerts|
      ensures SlotOf(st.alerts[i]) == Project(key) <==> st.alerts[i].project == project && st.alerts[i].ruleType == rt
    {
      CooldownKeyInjective(project, rt, st.alerts[i].project, st.alerts[i].ruleType);
    }
    if key in st.cooldown {
      var i :| 0 <= i < |st.alerts| && SlotOf(st.alerts[i]) == Project(key) && st.alerts[i].at == st.cooldown[key];
    }
  }

  /** The same for a route, as long as neither project ids nor methods hold a
      colon. */
  lemma RouteSuppressedIffRecent(st: State, ev: Event, details: Details, check: int, stamp: int)
    requires CooldownInv(st) && ColonFree(ev.project) && ColonFree(ev.verb)
    requires forall i :: 0 <= i < |st.alerts| && st.alerts[i].details.RouteRate? ==>
               ColonFree(st.alerts[i].project) && ColonFree(st.alerts[i].details.verb)
    ensures FireRoute(st, ev, details, check, stamp) == st <==>
            exists i :: 0 <= i < |st.alerts| && st.alerts[i].details.RouteRate? && st.alerts[i].project == ev.project &&
                        st.alerts[i].details.path == ev.path && st.alerts[i].details.verb == ev.verb &&
                        check - st.alerts[i].at < ROUTE_COOLDOWN
  {
    var key := RouteKey(ev.project, ev.path, ev.verb);
    assert FireRoute(st, ev, details, check, stamp) == st <==> Cooling(st.routeCooldown, key, check, ROUTE_COOLDOWN) by {
      if !Cooling(st.routeCooldown, key, check, ROUTE_COOLDOWN) {
        assert |FireRoute(st, ev, details, check, stamp).alerts| == |st.alerts| + 1;
      }
    }
    assert Stamp(st, Route(key)) == if key in st.routeCooldown then Some(st.routeCooldown[key]) else None;
    forall i | 0 <= i < |st.alerts|
      ensures SlotOf(st.alerts[i]) == Route(key) <==>
              st.alerts[i].details.RouteRate? && st.alerts[i].project == ev.project &&
              st.alerts[i].details.path == ev.path && st.alerts[i].details.verb == ev.verb
    {
      var a := st.alerts[i];
      if a.details.RouteRate? {
        RouteKeyInjective(ev.project, ev.path, ev.verb, a.project, a.details.path, a.details.verb);
      }
    }
    hide FireRoute, SlotOf, RouteKey, ColonFree;
    if key in st.routeCooldown {
      var i :| 0 <= i < |st.alerts| && SlotOf(st.alerts[i]) == Route(key) && st.alerts[i].at == st.routeCooldown[key];
    }
  }
}
