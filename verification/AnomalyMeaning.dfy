/** What the detector's checks decide, in numbers of window entries, and what a
    firing does, told on the entries and the cooldowns themselves.  Times are
    nanoseconds: a second is 1_000_000_000. */
module AnomalyMeaning {
  import opened Options
  import opened AnomalyKeys
  import opened VolumeSpike
  import opened Anomaly
  import opened Counting
  import Rows

  // ----- windows

  /** The entry is appended and its time remembered, and leading entries older than
      an hour are dropped, no other. */
  ghost predicate Appended(before: Track, after: Track, e: Entry, now: int) {
    var all := before.entries + [e];
    && after.last == Some(e.timestamp)
    && exists k :: 0 <= k <= |all| && after.entries == all[k..] &&
                   (forall i :: 0 <= i < k ==> all[i].timestamp < now - 3_600_000_000_000) &&
                   (k < |all| ==> all[k].timestamp >= now - 3_600_000_000_000)
  }

  lemma {:induction false} TrimMeans(entries: seq<Entry>, cutoff: int) returns (k: nat)
    ensures k <= |entries| && Trim(entries, cutoff) == entries[k..]
    ensures forall i :: 0 <= i < k ==> entries[i].timestamp < cutoff
    ensures k < |entries| ==> entries[k].timestamp >= cutoff
  {
    if |entries| > 0 && entries[0].timestamp < cutoff {
      var j := TrimMeans(entries[1..], cutoff);
      k := j + 1;
      assert entries[1..][j..] == entries[k..];
      assert forall i :: 0 < i < k ==> entries[i] == entries[1..][i - 1];
    } else {
      k := 0;
    }
  }

  lemma AddedMeans(w: Track, e: Entry, now: int)
    ensures Appended(w, Added(w, e, now, true), e, now)
  {
    var k := TrimMeans(w.entries + [e], now - HOUR);
  }

  function AtOrAfter(t: int): Entry -> bool { (e: Entry) => e.timestamp >= t }

  lemma {:induction false} SinceFilters(entries: seq<Entry>, t: int)
    ensures Since(entries, t) == Rows.Filter(AtOrAfter(t), entries)
  {
    if |entries| > 0 { SinceFilters(entries[..|entries| - 1], t); }
  }

  /** A lookup yields, in order, the entries at or after the time. */
  lemma SinceMeans(entries: seq<Entry>, t: int)
    ensures Picks(entries, (set i | 0 <= i < |entries| && entries[i].timestamp >= t), Since(entries, t))
    ensures |Since(entries, t)| == |set i | 0 <= i < |entries| && entries[i].timestamp >= t|
  {
    SinceFilters(entries, t);
    FilterPicks(AtOrAfter(t), entries);
    FilterNumber(AtOrAfter(t), entries);
    assert Chosen(AtOrAfter(t), entries) == set i | 0 <= i < |entries| && entries[i].timestamp >= t;
    hide Since, Rows.Filter, Picks;
  }

  lemma {:induction false} CountChooses(p: Entry -> bool, entries: seq<Entry>)
    ensures Count(p, entries) == |Chosen(p, entries)|
  {
    if |entries| == 0 {
      ChosenNothing(p, entries);
    } else {
      var t, e := entries[..|entries| - 1], entries[|entries| - 1];
      assert entries == t + [e];
      CountChooses(p, t);
      ChosenLast(p, t, e);
      hide Chosen;
    }
  }

  lemma CountRecent(p: Entry -> bool, entries: seq<Entry>, t: int)
    ensures Count(p, Since(entries, t)) == |Both(AtOrAfter(t), p, entries)|
  {
    SinceFilters(entries, t);
    CountChooses(p, Since(entries, t));
    NumberWithin(AtOrAfter(t), p, entries);
    hide *;
  }

  // ----- the checks

  /** At least ten entries since then, and of them at least the given percentage
      with status 400 or above. */
  ghost predicate RateReached(v: Option<Details>, entries: seq<Entry>, since: int, threshold: real) {
    var total := |set i | 0 <= i < |entries| && entries[i].timestamp >= since|;
    var errors := |set i | 0 <= i < |entries| && entries[i].timestamp >= since && entries[i].status >= 400|;
    v == if total >= 10 && 100.0 * errors as real >= threshold * total as real then Some(Rate(errors, total)) else None
  }

  /** The event failed to authenticate, and so did enough of its identifier's. */
  ghost predicate FailuresReached(v: Option<Details>, entries: seq<Entry>, since: int, threshold: real, ev: Event) {
    var fails := |set i | 0 <= i < |entries| && entries[i].timestamp >= since &&
                          (entries[i].status == 401 || entries[i].status == 403) && entries[i].identifier == ev.identifier|;
    v == if (ev.status == 401 || ev.status == 403) && fails as real >= threshold then Some(Failures(ev.identifier, fails)) else None
  }

  /** The event is a DELETE, and so are enough entries. */
  ghost predicate DeletesReached(v: Option<Details>, entries: seq<Entry>, since: int, threshold: real, ev: Event) {
    var deletes := |set i | 0 <= i < |entries| && entries[i].timestamp >= since && entries[i].verb == "DELETE"|;
    v == if ev.verb == "DELETE" && deletes as real >= threshold then Some(Deletes(deletes)) else None
  }

  /** Ten requests of the route in five minutes, a tenth of them with status 400 or
      above. */
  ghost predicate RouteReached(v: Option<Details>, entries: seq<Entry>, now: int, ev: Event) {
    var total := |set i | 0 <= i < |entries| && entries[i].timestamp >= now - 300_000_000_000|;
    var errors := |set i | 0 <= i < |entries| && entries[i].timestamp >= now - 300_000_000_000 && entries[i].status >= 400|;
    v == if total >= 10 && 10 * errors >= total then Some(RouteRate(ev.path, ev.verb, errors, total)) else None
  }

  /** How many entries are i minutes old; the first minute reaches a minute ahead. */
  ghost function Aged(entries: seq<Entry>, now: int, i: int): nat {
    |set j | 0 <= j < |entries| && entries[j].timestamp >= now - 3_600_000_000_000 &&
             now - entries[j].timestamp < (i + 1) * 60_000_000_000 &&
             (if i == 0 then -60_000_000_000 < now - entries[j].timestamp else i * 60_000_000_000 <= now - entries[j].timestamp)|
  }

  /** The current minute against the mean and deviation of the 59 before it. */
  ghost predicate SpikeReached(v: Option<Details>, entries: seq<Entry>, now: int, threshold: real, sqrt: real -> real) {
    exists b: seq<real> :: |b| == 60 && (forall i :: 0 <= i < 60 ==> b[i] == Aged(entries, now, i) as real) &&
      var history := b[1..];
      v == if MeanOf(history) >= 1.0 && b[0] > MeanOf(history) + threshold * sqrt(VarianceOf(history))
           then Some(Spike(b[0], MeanOf(history), sqrt(VarianceOf(history)))) else None
  }

  /** What a rule finds in a window. */
  ghost predicate Reached(v: Option<Details>, ev: Event, rule: Rule, now: int, entries: seq<Entry>, sqrt: real -> real) {
    var since := now - rule.windowSeconds * 1_000_000_000;
    match rule.ruleType
    case VolumeSpike => SpikeReached(v, entries, now, rule.threshold, sqrt)
    case ErrorRate => RateReached(v, entries, since, rule.threshold)
    case BruteForce => FailuresReached(v, entries, since, rule.threshold, ev)
    case MassDelete => DeletesReached(v, entries, since, rule.threshold, ev)
    case SilentService => v == None
    case ErrorRateByRoute => v == None
  }

  lemma PercentIs(errors: nat, total: nat, threshold: real)
    requires total > 0
    ensures Percent(errors, total) >= threshold <==> 100.0 * errors as real >= threshold * total as real
  {
    var (e, n, q) := (errors as real, total as real, errors as real / total as real);
    assert q * n == e;
    if q * 100.0 >= threshold {
      Scaled(q * 100.0 - threshold, n);
    } else {
      Scaled(threshold - q * 100.0, n);
      Above(threshold - q * 100.0, n);
    }
    assert (q * 100.0 - threshold) * n == 100.0 * e - threshold * n;
  }

  lemma Scaled(x: real, n: real)
    requires x >= 0.0 && n > 0.0
    ensures x * n >= 0.0
  {
  }

  lemma Above(x: real, n: real)
    requires x > 0.0 && n > 0.0
    ensures x * n > 0.0
  {
  }

  lemma ErrorsSince(entries: seq<Entry>, since: int)
    ensures Both(AtOrAfter(since), IsError(), entries) ==
            set i | 0 <= i < |entries| && entries[i].timestamp >= since && entries[i].status >= 400
  {
  }

  lemma RateMeans(threshold: real, entries: seq<Entry>, since: int)
    ensures RateReached(RateVerdict(threshold, Since(entries, since)), entries, since, threshold)
  {
    var recent := Since(entries, since);
    SinceMeans(entries, since);
    CountRecent(IsError(), entries, since);
    ErrorsSince(entries, since);
    hide Since, Count, Percent, Picks, Both, IsError, AtOrAfter;
    if |recent| >= 10 { PercentIs(Count(IsError(), recent), |recent|, threshold); }
  }

  lemma FailuresSince(entries: seq<Entry>, since: int, identifier: string)
    ensures Both(AtOrAfter(since), IsFailureOf(identifier), entries) ==
            set i | 0 <= i < |entries| && entries[i].timestamp >= since &&
                    (entries[i].status == 401 || entries[i].status == 403) && entries[i].identifier == identifier
  {
  }

  lemma FailuresMean(threshold: real, entries: seq<Entry>, since: int, ev: Event)
    ensures FailuresReached(if ev.status != 401 && ev.status != 403 then None else FailureVerdict(threshold, Since(entries, since), ev),
                            entries, since, threshold, ev)
  {
    CountRecent(IsFailureOf(ev.identifier), entries, since);
    FailuresSince(entries, since, ev.identifier);
    hide Since, Count, Both, IsFailureOf, AtOrAfter;
  }

  lemma DeletesSince(entries: seq<Entry>, since: int)
    ensures Both(AtOrAfter(since), IsDelete(), entries) ==
            set i | 0 <= i < |entries| && entries[i].timestamp >= since && entries[i].verb == "DELETE"
  {
  }

  lemma DeletesMean(threshold: real, entries: seq<Entry>, since: int, ev: Event)
    ensures DeletesReached(if ev.verb != "DELETE" then None else DeleteVerdict(threshold, Since(entries, since)), entries, since, threshold, ev)
  {
    CountRecent(IsDelete(), entries, since);
    DeletesSince(entries, since);
    hide Since, Count, Both, IsDelete, AtOrAfter;
  }

  lemma RouteMeans(entries: seq<Entry>, now: int, ev: Event)
    ensures RouteReached(RouteVerdictOf(ev, Since(entries, now - ROUTE_WINDOW)), entries, now, ev)
  {
    var since := now - ROUTE_WINDOW;
    var recent := Since(entries, since);
    SinceMeans(entries, since);
    CountRecent(IsError(), entries, since);
    ErrorsSince(entries, since);
    hide Since, Count, Percent, Picks, Both, IsError, AtOrAfter;
    if |recent| >= 10 { PercentIs(Count(IsError(), recent), |recent|, 10.0); }
  }

  // ----- the minutes of the volume spike

  function InThe(now: int, i: int): Entry -> bool { (e: Entry) => WholeMinutes(now - e.timestamp) == i }

  lemma {:induction false} MinuteChooses(now: int, entries: seq<Entry>, i: int)
    ensures InMinute(now, Timestamps(entries), i) == |Chosen(InThe(now, i), entries)|
  {
    if |entries| == 0 {
      ChosenNothing(InThe(now, i), entries);
    } else {
      var t, e := entries[..|entries| - 1], entries[|entries| - 1];
      assert entries == t + [e] && Timestamps(entries)[..|t|] == Timestamps(t);
      MinuteChooses(now, t, i);
      ChosenLast(InThe(now, i), t, e);
      hide Chosen, WholeMinutes;
    }
  }

  lemma MinuteMeans(d: int, i: int)
    requires 0 <= i < 60
    ensures WholeMinutes(d) == i <==>
            d < (i + 1) * 60_000_000_000 && (if i == 0 then -60_000_000_000 < d else i * 60_000_000_000 <= d)
  {
  }

  lemma AgedChosen(entries: seq<Entry>, now: int, i: int)
    requires 0 <= i < 60
    ensures |Both(AtOrAfter(now - HOUR), InThe(now, i), entries)| == Aged(entries, now, i)
  {
    hide WholeMinutes;
    forall j | 0 <= j < |entries| { MinuteMeans(now - entries[j].timestamp, i); }
    assert Both(AtOrAfter(now - HOUR), InThe(now, i), entries) ==
           set j | 0 <= j < |entries| && entries[j].timestamp >= now - 3_600_000_000_000 &&
                   now - entries[j].timestamp < (i + 1) * 60_000_000_000 &&
                   (if i == 0 then -60_000_000_000 < now - entries[j].timestamp
                    else i * 60_000_000_000 <= now - entries[j].timestamp);
  }

  lemma AgedMeans(entries: seq<Entry>, now: int, i: int)
    requires 0 <= i < 60
    ensures InMinute(now, Timestamps(Since(entries, now - HOUR)), i) == Aged(entries, now, i)
  {
    hide *;
    MinuteChooses(now, Since(entries, now - HOUR), i);
    SinceFilters(entries, now - HOUR);
    NumberWithin(AtOrAfter(now - HOUR), InThe(now, i), entries);
    AgedChosen(entries, now, i);
  }

  lemma SpikeMeans(threshold: real, entries: seq<Entry>, now: int, sqrt: real -> real)
    ensures SpikeReached(SpikeVerdict(threshold, Since(entries, now - HOUR), now, sqrt), entries, now, threshold, sqrt)
  {
    var recent := Since(entries, now - HOUR);
    var b := Buckets(now, Timestamps(recent));
    hide InMinute, Since, Timestamps, MeanOf, VarianceOf, Aged;
    forall i | 0 <= i < 60 ensures b[i] == Aged(entries, now, i) as real { AgedMeans(entries, now, i); }
  }

  /** Every verdict means what its numbers say. */
  lemma VerdictIsReached(ev: Event, rule: Rule, now: int, entries: seq<Entry>, sqrt: real -> real)
    ensures Reached(Verdict(ev, rule, now, Since(entries, LookupFrom(rule, now)), sqrt), ev, rule, now, entries, sqrt)
  {
    var since := now - rule.windowSeconds * 1_000_000_000;
    hide RateVerdict, FailureVerdict, DeleteVerdict, SpikeVerdict, Since, RateReached, FailuresReached, DeletesReached, SpikeReached;
    match rule.ruleType
    case VolumeSpike => SpikeMeans(rule.threshold, entries, now, sqrt);
    case ErrorRate => RateMeans(rule.threshold, entries, since);
    case BruteForce => FailuresMean(rule.threshold, entries, since, ev);
    case MassDelete => DeletesMean(rule.threshold, entries, since, ev);
    case SilentService =>
    case ErrorRateByRoute =>
  }

  // ----- firing

  /** A verdict raises an alert, and stamps the cooldown of its project and rule,
      unless an earlier stamp is less than five minutes old. */
  ghost predicate RuleTried(s: State, s': State, project: string, service: string, environment: string, rt: RuleType,
                            v: Option<Details>, check: int, stamp: int) {
    var key := CooldownKey(project, rt);
    s' == if v.None? || (key in s.cooldown && check - s.cooldown[key] < 300_000_000_000) then s
          else s.(cooldown := s.cooldown[key := stamp],
                  alerts := s.alerts + [Alert(project, service, environment, rt, v.value, stamp)])
  }

  /** The same for a route, with ten minutes. */
  ghost predicate RouteTried(s: State, s': State, ev: Event, v: Option<Details>, check: int, stamp: int) {
    var key := RouteKey(ev.project, ev.path, ev.verb);
    s' == if v.None? || (key in s.routeCooldown && check - s.routeCooldown[key] < 600_000_000_000) then s
          else s.(routeCooldown := s.routeCooldown[key := stamp],
                  alerts := s.alerts + [Alert(ev.project, ev.service, ev.environment, ErrorRateByRoute, v.value, stamp)])
  }

  lemma FireMeans(s: State, project: string, service: string, environment: string, rt: RuleType, details: Details, check: int, stamp: int)
    ensures RuleTried(s, FireRule(s, project, service, environment, rt, details, check, stamp), project, service, environment, rt,
                      Some(details), check, stamp)
  {
    hide CooldownKey;
  }

  lemma FireRouteMeans(s: State, ev: Event, details: Details, check: int, stamp: int)
    ensures RouteTried(s, FireRoute(s, ev, details, check, stamp), ev, Some(details), check, stamp)
  {
    hide RouteKey;
  }

  /** A service is silent for a threshold of minutes. */
  lemma SilentMeans(last: int, now: int, threshold: real)
    ensures SilentTooLong(last, now, threshold) <==> (now - last) as real >= threshold * 60_000_000_000.0
  {
  }
}
