/** The detector's objects, proved against the state machine of Anomaly. */
module AnomalyDetector {
  import opened Options
  import opened AnomalyKeys
  import opened VolumeSpike
  import opened Anomaly
  import opened AnomalyCalls
  import Counting
  import Meaning = AnomalyMeaning

  class Window {
    var entries: seq<Entry>
    var lastEventAt: Option<int>

    ghost function Value(): Track
      reads this
    {
      Track(entries, lastEventAt)
    }

    constructor ()
      ensures Value() == EMPTY
    {
      entries, lastEventAt := [], None;
    }

    method Add(e: Entry, now: int)
      modifies this
      ensures Value() == Added(old(Value()), e, now, true)
      ensures Meaning.Appended(old(Value()), Value(), e, now)
    {
      Meaning.AddedMeans(Value(), e, now);
      entries := entries + [e];
      lastEventAt := Some(e.timestamp);
      var cutoff := now - HOUR;
      var i := 0;
      while i < |entries| && entries[i].timestamp < cutoff
        invariant 0 <= i <= |entries| && entries == old(entries) + [e]
        invariant Trim(entries[i..], cutoff) == Trim(entries, cutoff)
      {
        assert entries[i..][1..] == entries[i + 1..];
        i := i + 1;
      }
      if i > 0 {
        entries := entries[i..];
      }
    }

    method EntriesSince(t: int) returns (out: seq<Entry>)
      ensures out == Since(entries, t)
      ensures Counting.Picks(entries, (set i | 0 <= i < |entries| && entries[i].timestamp >= t), out)
    {
      Meaning.SinceMeans(entries, t);
      hide Counting.Picks;
      out := [];
      for i := 0 to |entries|
        invariant out == Since(entries[..i], t)
      {
        assert entries[..i + 1][..i] == entries[..i];
        if entries[i].timestamp >= t {
          out := out + [entries[i]];
        }
      }
      assert entries[..|entries|] == entries;
    }
  }

  method CountIf(p: Entry -> bool, entries: seq<Entry>) returns (n: nat)
    ensures n == Count(p, entries)
  {
    n := 0;
    for i := 0 to |entries|
      invariant n == Count(p, entries[..i])
    {
      assert entries[..i + 1][..i] == entries[..i];
      if p(entries[i]) { n := n + 1; }
    }
    assert entries[..|entries|] == entries;
  }

  method CheckVolumeSpike(rule: Rule, w: Window, now: int, sqrt: real -> real) returns (v: Option<Details>)
    ensures v == SpikeVerdict(rule.threshold, Since(w.entries, now - HOUR), now, sqrt)
    ensures Meaning.SpikeReached(v, w.entries, now, rule.threshold, sqrt)
  {
    hide *;
    var recent := w.EntriesSince(now - HOUR);
    var buckets := FillBuckets(now, Timestamps(recent));
    var history := buckets[1..];
    SpikeDecides(rule.threshold, recent, now, buckets[..], history, sqrt);
    Meaning.SpikeMeans(rule.threshold, w.entries, now, sqrt);
    var mean, stddev := MeanStddev(history, sqrt);
    if mean < 1.0 { return None; }
    if buckets[0] > mean + rule.threshold * stddev {
      return Some(Spike(buckets[0], mean, stddev));
    }
    return None;
  }

  lemma SpikeDecides(threshold: real, recent: seq<Entry>, now: int, buckets: seq<real>, history: seq<real>, sqrt: real -> real)
    requires buckets == Buckets(now, Timestamps(recent)) && history == buckets[1..]
    ensures |buckets| == 60
    ensures SpikeVerdict(threshold, recent, now, sqrt) ==
            if MeanOf(history) < 1.0 || buckets[0] <= MeanOf(history) + threshold * sqrt(VarianceOf(history)) then None
            else Some(Spike(buckets[0], MeanOf(history), sqrt(VarianceOf(history))))
  {
    hide MeanOf, VarianceOf, InMinute, Timestamps;
  }

  method CheckErrorRate(rule: Rule, w: Window, now: int) returns (v: Option<Details>)
    ensures v == RateVerdict(rule.threshold, Since(w.entries, now - rule.windowSeconds * SECOND))
    ensures Meaning.RateReached(v, w.entries, now - rule.windowSeconds * 1_000_000_000, rule.threshold)
  {
    hide Meaning.RateReached, Since, Count, IsError, Percent;
    Meaning.RateMeans(rule.threshold, w.entries, now - rule.windowSeconds * SECOND);
    var recent := w.EntriesSince(now - rule.windowSeconds * SECOND);
    if |recent| < 10 { return None; }
    var errors := CountIf(IsError(), recent);
    return if Percent(errors, |recent|) >= rule.threshold then Some(Rate(errors, |recent|)) else None;
  }

  /** Failed attempts per identifier. */
  method CountFailures(recent: seq<Entry>) returns (counts: map<string, nat>)
    ensures forall id :: (if id in counts then counts[id] else 0) == Count(IsFailureOf(id), recent)
  {
    counts := map[];
    for i := 0 to |recent|
      invariant forall id :: (if id in counts then counts[id] else 0) == Count(IsFailureOf(id), recent[..i])
    {
      assert recent[..i + 1][..i] == recent[..i];
      var e := recent[i];
      if e.status == 401 || e.status == 403 {
        counts := counts[e.identifier := (if e.identifier in counts then counts[e.identifier] else 0) + 1];
      }
    }
    assert recent[..|recent|] == recent;
  }

  method CheckBruteForce(ev: Event, rule: Rule, w: Window, now: int) returns (v: Option<Details>)
    ensures v == if ev.status != 401 && ev.status != 403 then None
                 else FailureVerdict(rule.threshold, Since(w.entries, now - rule.windowSeconds * SECOND), ev)
    ensures Meaning.FailuresReached(v, w.entries, now - rule.windowSeconds * 1_000_000_000, rule.threshold, ev)
  {
    hide Meaning.FailuresReached, Since, Count, IsFailureOf;
    Meaning.FailuresMean(rule.threshold, w.entries, now - rule.windowSeconds * SECOND, ev);
    if ev.status != 401 && ev.status != 403 { return None; }
    var recent := w.EntriesSince(now - rule.windowSeconds * SECOND);
    var counts := CountFailures(recent);
    var fails := if ev.identifier in counts then counts[ev.identifier] else 0;
    return if fails as real >= rule.threshold then Some(Failures(ev.identifier, fails)) else None;
  }

  method CheckMassDelete(ev: Event, rule: Rule, w: Window, now: int) returns (v: Option<Details>)
    ensures v == if ev.verb != "DELETE" then None
                 else DeleteVerdict(rule.threshold, Since(w.entries, now - rule.windowSeconds * SECOND))
    ensures Meaning.DeletesReached(v, w.entries, now - rule.windowSeconds * 1_000_000_000, rule.threshold, ev)
  {
    hide Meaning.DeletesReached, Since, Count, IsDelete;
    Meaning.DeletesMean(rule.threshold, w.entries, now - rule.windowSeconds * SECOND, ev);
    if ev.verb != "DELETE" { return None; }
    var recent := w.EntriesSince(now - rule.windowSeconds * SECOND);
    var deletes := CountIf(IsDelete(), recent);
    return if deletes as real >= rule.threshold then Some(Deletes(deletes)) else None;
  }

  method CheckRoute(ev: Event, w: Window, now: int) returns (v: Option<Details>)
    ensures v == RouteVerdictOf(ev, Since(w.entries, now - ROUTE_WINDOW))
    ensures Meaning.RouteReached(v, w.entries, now, ev)
  {
    hide Meaning.RouteReached, Since, Count, IsError, Percent;
    Meaning.RouteMeans(w.entries, now, ev);
    var recent := w.EntriesSince(now - ROUTE_WINDOW);
    if |recent| < 10 { return None; }
    var errors := CountIf(IsError(), recent);
    return if Percent(errors, |recent|) < 10.0 then None else Some(RouteRate(ev.path, ev.verb, errors, |recent|));
  }

  class Detector {
    var windows: map<string, Window>
    var routeWindows: map<string, Window>
    var cooldown: map<string, int>
    var routeCooldown: map<string, int>
    var alerts: seq<Alert>
    const sqrt: real -> real

    /** No window is shared, and every window key can be split. */
    ghost predicate Valid()
      reads this
    {
      && (forall a, b :: a in windows && b in windows && a != b ==> windows[a] != windows[b])
      && (forall a, b :: a in routeWindows && b in routeWindows && a != b ==> routeWindows[a] != routeWindows[b])
      && (forall a, b :: a in windows && b in routeWindows ==> windows[a] != routeWindows[b])
      && (forall a :: a in windows ==> ':' in a)
    }

    static ghost function Tracks(m: map<string, Window>): map<string, Track>
      reads m.Values
    {
      map k | k in m :: m[k].Value()
    }

    /** Between calls nothing is held. */
    ghost function View(): (s: State)
      reads this, windows.Values, routeWindows.Values
      ensures s.held == map[]
    {
      State(Tracks(windows), Tracks(routeWindows), cooldown, routeCooldown, alerts, map[])
    }

    constructor (sqrt: real -> real)
      ensures Valid() && View() == START && this.sqrt == sqrt
      ensures windows == map[] && routeWindows == map[]
    {
      windows, routeWindows, cooldown, routeCooldown, alerts := map[], map[], map[], map[], [];
      this.sqrt := sqrt;
    }

    /** The window of a key, a new one if there is none. */
    static method GetOrNew(m: map<string, Window>, key: string) returns (w: Window)
      ensures key in m ==> w == m[key]
      ensures key !in m ==> fresh(w)
      ensures w.Value() == Get(Tracks(m), key) && Tracks(m[key := w]) == Tracks(m)[key := w.Value()]
    {
      if key in m {
        w := m[key];
      } else {
        w := new Window();
      }
    }

    method GetOrCreate(project: string, service: string) returns (w: Window)
      requires Valid()
      modifies this`windows
      ensures Valid() && WindowKey(project, service) in windows && windows[WindowKey(project, service)] == w
      ensures w.Value() == Get(old(Tracks(windows)), WindowKey(project, service))
      ensures Tracks(windows) == old(Tracks(windows))[WindowKey(project, service) := w.Value()]
      ensures fresh(windows.Values - old(windows.Values))
    {
      var key := WindowKey(project, service);
      assert key[|project|] == ':';
      hide WindowKey;
      w := GetOrNew(windows, key);
      windows := windows[key := w];
    }

    /** Adds to one window of a map; neither the map's other windows nor those of
        the other map change. */
    static method AddTo(m: map<string, Window>, ghost others: map<string, Window>, key: string, e: Entry, at: int)
      requires key in m && m[key] !in others.Values
      requires forall a, b :: a in m && b in m && a != b ==> m[a] != m[b]
      modifies m[key]
      ensures Tracks(m) == old(Tracks(m))[key := Added(old(m[key].Value()), e, at, true)]
      ensures Tracks(others) == old(Tracks(others))
    {
      hide Added;
      m[key].Add(e, at);
      assert forall k :: k in m && k != key ==> m[k].Value() == old(m[k].Value());
      assert forall k :: k in others ==> others[k].Value() == old(others[k].Value());
    }

    method AddEvent(ev: Event, at: int) returns (w: Window)
      requires Valid()
      modifies this`windows, windows.Values
      ensures Valid() && WindowKey(ev.project, ev.service) in windows && windows[WindowKey(ev.project, ev.service)] == w
      ensures View() == Apply(old(View()), Add(ev, at), true, sqrt)
      ensures fresh(windows.Values - old(windows.Values))
    {
      AddStep(View(), ev, at, sqrt);
      hide Added, WindowKey, EntryOf, Tracks, Apply, Get;
      w := GetOrCreate(ev.project, ev.service);
      AddTo(windows, routeWindows, WindowKey(ev.project, ev.service), EntryOf(ev), at);
    }

    method GetOrCreateRoute(ev: Event) returns (w: Window)
      requires Valid()
      modifies this`routeWindows
      ensures Valid() && RouteKey(ev.project, ev.path, ev.verb) in routeWindows
      ensures routeWindows[RouteKey(ev.project, ev.path, ev.verb)] == w
      ensures w.Value() == Get(old(Tracks(routeWindows)), RouteKey(ev.project, ev.path, ev.verb))
      ensures Tracks(routeWindows) == old(Tracks(routeWindows))[RouteKey(ev.project, ev.path, ev.verb) := w.Value()]
      ensures fresh(routeWindows.Values - old(routeWindows.Values))
    {
      hide RouteKey;
      var key := RouteKey(ev.project, ev.path, ev.verb);
      w := GetOrNew(routeWindows, key);
      routeWindows := routeWindows[key := w];
    }

    method AddRouteEvent(ev: Event, at: int) returns (w: Window)
      requires Valid()
      modifies this`routeWindows, routeWindows.Values
      ensures Valid() && RouteKey(ev.project, ev.path, ev.verb) in routeWindows
      ensures routeWindows[RouteKey(ev.project, ev.path, ev.verb)] == w
      ensures View() == Apply(old(View()), AddRoute(ev, at), true, sqrt)
      ensures fresh(routeWindows.Values - old(routeWindows.Values))
    {
      AddRouteStep(View(), ev, at, sqrt);
      hide Added, RouteKey, RouteEntryOf, Tracks, Apply, Get;
      w := GetOrCreateRoute(ev);
      AddTo(routeWindows, windows, RouteKey(ev.project, ev.path, ev.verb), RouteEntryOf(ev), at);
    }

    method FireAlert(project: string, service: string, environment: string, rt: RuleType, details: Details, check: int, stamp: int)
      requires Valid()
      modifies this`cooldown, this`alerts
      ensures View() == FireRule(old(View()), project, service, environment, rt, details, check, stamp)
      ensures Meaning.RuleTried(old(View()), View(), project, service, environment, rt, Some(details), check, stamp)
    {
      hide Meaning.RuleTried, CooldownKey, Tracks;
      Meaning.FireMeans(View(), project, service, environment, rt, details, check, stamp);
      var key := CooldownKey(project, rt);
      if key in cooldown && check - cooldown[key] < COOLDOWN { return; }
      cooldown := cooldown[key := stamp];
      alerts := alerts + [Alert(project, service, environment, rt, details, stamp)];
    }

    method FireRouteAlert(ev: Event, details: Details, check: int, stamp: int)
      requires Valid()
      modifies this`routeCooldown, this`alerts
      ensures View() == FireRoute(old(View()), ev, details, check, stamp)
      ensures Meaning.RouteTried(old(View()), View(), ev, Some(details), check, stamp)
    {
      hide RouteKey, Meaning.RouteTried, Tracks;
      Meaning.FireRouteMeans(View(), ev, details, check, stamp);
      var key := RouteKey(ev.project, ev.path, ev.verb);
      if key in routeCooldown && check - routeCooldown[key] < ROUTE_COOLDOWN { return; }
      routeCooldown := routeCooldown[key := stamp];
      alerts := alerts + [Alert(ev.project, ev.service, ev.environment, ErrorRateByRoute, details, stamp)];
    }

    /** The dispatch on the rule type; it only looks. */
    method CheckRule(ev: Event, rule: Rule, w: Window, now: int) returns (verdict: Option<Details>)
      ensures verdict == Verdict(ev, rule, now, Since(w.entries, LookupFrom(rule, now)), sqrt)
      ensures Meaning.Reached(verdict, ev, rule, now, w.entries, sqrt)
    {
      hide SpikeVerdict, RateVerdict, FailureVerdict, DeleteVerdict, Meaning.Reached, Meaning.SpikeReached, Meaning.RateReached,
           Meaning.FailuresReached, Meaning.DeletesReached;
      Meaning.VerdictIsReached(ev, rule, now, w.entries, sqrt);
      verdict := None;
      match rule.ruleType {
        case VolumeSpike => verdict := CheckVolumeSpike(rule, w, now, sqrt);
        case ErrorRate => verdict := CheckErrorRate(rule, w, now);
        case BruteForce => verdict := CheckBruteForce(ev, rule, w, now);
        case MassDelete => verdict := CheckMassDelete(ev, rule, w, now);
        case SilentService =>
        case ErrorRateByRoute =>
      }
    }

    method EvaluateRule(ghost id: nat, ev: Event, rule: Rule, w: Window, r: Reading)
      requires Valid() && WindowKey(ev.project, ev.service) in windows && windows[WindowKey(ev.project, ev.service)] == w
      modifies this`cooldown, this`alerts
      ensures View() == RunFrom(old(View()), RulePair(id, ev, rule, r), true, sqrt)
    {
      RulePairRuns(View(), id, ev, rule, r, sqrt);
      assert Get(View().windows, WindowKey(ev.project, ev.service)).entries == w.entries;
      hide Verdict, FireRule, WindowKey, RunFrom, LookupFrom;
      var verdict := CheckRule(ev, rule, w, r.now);
      if verdict.Some? {
        FireAlert(ev.project, ev.service, ev.environment, rule.ruleType, verdict.value, r.check, r.stamp);
      }
    }

    method CheckErrorRateByRoute(ghost id: nat, ev: Event, w: Window, r: Reading)
      requires Valid()
      requires RouteKey(ev.project, ev.path, ev.verb) in routeWindows && routeWindows[RouteKey(ev.project, ev.path, ev.verb)] == w
      modifies this`routeCooldown, this`alerts
      ensures View() == RunFrom(old(View()), RoutePair(id, ev, r), true, sqrt)
    {
      RoutePairRuns(View(), id, ev, r, sqrt);
      hide RouteKey, FireRoute, RunFrom, RouteVerdictOf, Since;
      assert Get(View().routes, RouteKey(ev.project, ev.path, ev.verb)).entries == w.entries;
      var verdict := CheckRoute(ev, w, r.now);
      if verdict.Some? {
        FireRouteAlert(ev, verdict.value, r.check, r.stamp);
      }
    }

    /** The loop over the project's rules. */
    method EvaluateRules(ghost id: nat, ev: Event, rules: seq<Rule>, w: Window, read: nat -> Reading)
      requires Valid() && WindowKey(ev.project, ev.service) in windows && windows[WindowKey(ev.project, ev.service)] == w
      modifies this`cooldown, this`alerts
      ensures Valid() && View() == RunFrom(old(View()), RuleSteps(id, ev, rules, read), true, sqrt)
    {
      hide Apply, View, WindowKey, RulePair;
      for i := 0 to |rules|
        invariant Valid() && View() == RunFrom(old(View()), RuleSteps(id, ev, rules[..i], read), true, sqrt)
      {
        assert rules[..i + 1][..i] == rules[..i];
        if rules[i].active {
          EvaluateRule(id, ev, rules[i], w, read(i));
          RunAppend(old(View()), RuleSteps(id, ev, rules[..i], read), RulePair(id, ev, rules[i], read(i)), true, sqrt);
          assert RuleSteps(id, ev, rules[..i + 1], read) == RuleSteps(id, ev, rules[..i], read) + RulePair(id, ev, rules[i], read(i));
        } else {
          assert RuleSteps(id, ev, rules[..i + 1], read) == RuleSteps(id, ev, rules[..i], read);
        }
      }
      assert rules[..|rules|] == rules;
    }

    /** Route-level detection, outside the per-project rules. */
    method ProcessRoute(ghost id: nat, ev: Event, times: Times)
      requires Valid()
      modifies this`routeWindows, this`routeCooldown, this`alerts, routeWindows.Values
      ensures Valid() && View() == RunFrom(old(View()), RouteSteps(id, ev, times), true, sqrt)
      ensures fresh(routeWindows.Values - old(routeWindows.Values))
    {
      hide Apply, View, RouteKey, RoutePair;
      if ev.path != "" {
        var rw := AddRouteEvent(ev, times.routeAdd);
        CheckErrorRateByRoute(id, ev, rw, times.route);
        RunOne(old(View()), AddRoute(ev, times.routeAdd), true, sqrt);
        RunAppend(old(View()), [AddRoute(ev, times.routeAdd)], RoutePair(id, ev, times.route), true, sqrt);
      }
    }

    /** `id` names the calling worker. */
    method ProcessEvent(ghost id: nat, ev: Event, rules: Option<seq<Rule>>, times: Times)
      requires Valid()
      modifies this, windows.Values, routeWindows.Values
      ensures Valid() && View() == RunFrom(old(View()), EventSteps(id, ev, rules, times), true, sqrt)
      ensures EventHandled(old(View()), View(), ev, rules, times, sqrt)
      ensures fresh(windows.Values - old(windows.Values)) && fresh(routeWindows.Values - old(routeWindows.Values))
    {
      hide *;
      EventStepsHandled(View(), id, ev, rules, times, sqrt);
      EventRuns(View(), id, ev, rules, times, sqrt);
      var w := AddEvent(ev, times.add);
      if rules.None? { return; }
      EvaluateRules(id, ev, rules.value, w, times.read);
      ProcessRoute(id, ev, times);
    }

    /** One rule of the silent-service loop, with the last arrival read before. */
    method CheckSilentRule(key: string, rule: Rule, last: int, r: Reading)
      requires Valid() && ':' in key
      modifies this`cooldown, this`alerts
      ensures View() == FireSilent(old(View()), LastArrival(key, last), rule, r.now, r.check, r.stamp)
      ensures SilenceHandled(old(View()), View(), key, last, rule, r)
    {
      SilentHandled(View(), key, last, rule, r);
      hide SilenceHandled, FireRule, ProjectOf, ServiceOf, SilentTooLong;
      var project, service := SplitKey(key);
      if rule.active && rule.ruleType == RuleType.SilentService && SilentTooLong(last, r.now, rule.threshold) {
        FireAlert(project, service, "unknown", RuleType.SilentService, Silence(last), r.check, r.stamp);
      }
    }

    method TrySilentRules(key: string, rules: seq<Rule>, last: int, read: nat -> Reading)
      requires Valid() && ':' in key
      modifies this`cooldown, this`alerts
      ensures View() == FireAll(old(View()), LastArrival(key, last), rules, read)
    {
      hide View, FireSilent;
      for i := 0 to |rules|
        invariant View() == FireAll(old(View()), LastArrival(key, last), rules[..i], read)
      {
        assert rules[..i + 1][..i] == rules[..i];
        CheckSilentRule(key, rules[i], last, read(i));
      }
      assert rules[..|rules|] == rules;
    }

    /** One window of the silent-service loop: the last arrival is read first, the
        rules are loaded after. */
    method CheckSilentService(ghost id: nat, key: string, rules: Option<seq<Rule>>, read: nat -> Reading)
      requires Valid() && key in windows
      modifies this`cooldown, this`alerts
      ensures View() == RunFrom(old(View()), SilentSteps(id, key, rules, read), true, sqrt)
      ensures ServiceHandled(old(View()), View(), key, rules, read)
    {
      var last := windows[key].lastEventAt;
      assert Get(View().windows, key).last == last && ':' in key && View().held == map[];
      SilentStepsHandled(View(), id, key, rules, read, sqrt);
      hide Apply, View, RunFrom, FireAll, SilentSteps, Get, ServiceHandled;
      SilentRuns(View(), id, key, rules, read, sqrt);
      if last.Some? && rules.Some? { TrySilentRules(key, rules.value, last.value, read); }
    }

    /** The loop over a snapshot of the window keys, in the map's order. */
    method CheckAllSilentServices(ghost id: nat, keys: seq<string>, rulesOf: string -> Option<seq<Rule>>, read: (nat, nat) -> Reading)
      requires Valid() && forall k :: k in keys ==> k in windows
      modifies this`cooldown, this`alerts
      ensures Valid() && View() == RunFrom(old(View()), AllSilentSteps(id, keys, rulesOf, read), true, sqrt)
      ensures ServicesHandled(old(View()), View(), keys, rulesOf, read)
    {
      hide Apply, SilentSteps, ServiceHandled, ServicesHandled;
      ghost var st := View();
      NoServicesHandled(st, rulesOf, read);
      for i := 0 to |keys|
        invariant Valid() && View() == RunFrom(st, AllSilentSteps(id, keys[..i], rulesOf, read), true, sqrt)
        invariant ServicesHandled(st, View(), keys[..i], rulesOf, read)
      {
        assert keys[..i + 1][..i] == keys[..i];
        var key := keys[i];
        ghost var mid := View();
        CheckSilentService(id, key, rulesOf(ProjectOf(key)), ReadAt(read, i));
        RunAppend(st, AllSilentSteps(id, keys[..i], rulesOf, read), SilentSteps(id, key, rulesOf(ProjectOf(key)), ReadAt(read, i)), true, sqrt);
        ServicesExtend(st, mid, View(), keys[..i], key, rulesOf, read);
        assert keys[..i + 1] == keys[..i] + [key];
      }
      assert keys[..|keys|] == keys;
    }
  }
}
