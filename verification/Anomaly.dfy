/** The anomaly detector as a state machine over its atomic steps, each one lock
    region: adding to a window, looking a window up, testing and stamping a
    cooldown.  A caller holds what it looked up until it fires.  Each step carries
    the clock readings it makes, so any interleaving of workers and of the
    silent-service loop is a sequence of steps. */
module Anomaly {
  import opened Options
  import opened AnomalyKeys
  import opened VolumeSpike

  datatype Event = Event(project: string, service: string, environment: string, timestamp: int,
                         status: int, verb: string, path: string, identifier: string)

  datatype Entry = Entry(timestamp: int, status: int, verb: string, identifier: string)

  datatype Rule = Rule(ruleType: RuleType, threshold: real, windowSeconds: int, active: bool)

  /** A sliding window: its entries in arrival order and the timestamp of the
      latest arrival, absent (the zero time) until one arrives. */
  datatype Track = Track(entries: seq<Entry>, last: Option<int>)

  datatype Details =
    | Spike(current: real, baseline: real, deviation: real)
    | Rate(errors: nat, total: nat)
    | Failures(identifier: string, fails: nat)
    | Deletes(deletes: nat)
    | Silence(last: int)
    | RouteRate(path: string, verb: string, errors: nat, total: nat)

  /** A call of the alert sink; `at` is the cooldown stamp. */
  datatype Alert = Alert(project: string, service: string, environment: string, ruleType: RuleType,
                         details: Details, at: int)

  /** What a caller carries from one lock region to a later one: a verdict to
      fire, or the last arrival it read. */
  datatype Held =
    | RuleVerdict(project: string, service: string, environment: string, ruleType: RuleType, details: Details)
    | RouteVerdict(event: Event, details: Details)
    | LastArrival(key: string, last: int)

  /** `held` is keyed by caller. */
  datatype State = State(windows: map<string, Track>, routes: map<string, Track>,
                         cooldown: map<string, int>, routeCooldown: map<string, int>, alerts: seq<Alert>,
                         held: map<nat, Held>)

  /** `now` is read before a lookup or an age test, `check` for the cooldown test
      and `stamp` for the cooldown stamp. */
  datatype Step =
    | Add(event: Event, at: int)
    | Look(w: nat, event: Event, rule: Rule, now: int)
    | AddRoute(event: Event, at: int)
    | LookRoute(w: nat, event: Event, now: int)
    | Fire(w: nat, check: int, stamp: int)
    | ReadLast(w: nat, key: string)
    | Silent(w: nat, rule: Rule, now: int, check: int, stamp: int)
    | Done(w: nat)

  const COOLDOWN: int := 5 * MINUTE
  const ROUTE_COOLDOWN: int := 10 * MINUTE
  const ROUTE_WINDOW: int := 5 * MINUTE

  const EMPTY := Track([], None)

  // ----- windows

  /** Drops leading entries older than the cutoff. */
  function Trim(entries: seq<Entry>, cutoff: int): seq<Entry> {
    if |entries| > 0 && entries[0].timestamp < cutoff then Trim(entries[1..], cutoff) else entries
  }

  /** The entries at or after `t`. */
  function Since(entries: seq<Entry>, t: int): seq<Entry> {
    if |entries| == 0 then []
    else Since(entries[..|entries| - 1], t) +
         (if entries[|entries| - 1].timestamp >= t then [entries[|entries| - 1]] else [])
  }

  function EntryOf(e: Event): Entry { Entry(e.timestamp, e.status, e.verb, e.identifier) }

  /** Route windows keep no identifier. */
  function RouteEntryOf(e: Event): Entry { Entry(e.timestamp, e.status, e.verb, "") }

  /** window.add; with `trims` false, a window that remembers everything. */
  function Added(w: Track, e: Entry, now: int, trims: bool): Track {
    Track(if trims then Trim(w.entries + [e], now - HOUR) else w.entries + [e], Some(e.timestamp))
  }

  function Get(m: map<string, Track>, key: string): Track { if key in m then m[key] else EMPTY }

  // ----- what a check counts

  function Count(p: Entry -> bool, entries: seq<Entry>): nat {
    if |entries| == 0 then 0
    else Count(p, entries[..|entries| - 1]) + if p(entries[|entries| - 1]) then 1 else 0
  }

  function IsError(): Entry -> bool { (e: Entry) => e.status >= 400 }

  function IsDelete(): Entry -> bool { (e: Entry) => e.verb == "DELETE" }

  function IsFailureOf(identifier: string): Entry -> bool {
    (e: Entry) => (e.status == 401 || e.status == 403) && e.identifier == identifier
  }

  function Timestamps(entries: seq<Entry>): seq<int> {
    seq(|entries|, i requires 0 <= i < |entries| => entries[i].timestamp)
  }

  function Percent(errors: nat, total: nat): real
    requires total > 0
  {
    errors as real / total as real * 100.0
  }

  // ----- the rules

  function SpikeVerdict(threshold: real, recent: seq<Entry>, now: int, sqrt: real -> real): Option<Details> {
    var buckets := Buckets(now, Timestamps(recent));
    if Fires(buckets, threshold, sqrt) then Some(Spike(buckets[0], MeanOf(buckets[1..]), sqrt(VarianceOf(buckets[1..])))) else None
  }

  function RateVerdict(threshold: real, recent: seq<Entry>): Option<Details> {
    if |recent| < 10 then None
    else
      var errors := Count(IsError(), recent);
      if Percent(errors, |recent|) >= threshold then Some(Rate(errors, |recent|)) else None
  }

  function FailureVerdict(threshold: real, recent: seq<Entry>, ev: Event): Option<Details> {
    var fails := Count(IsFailureOf(ev.identifier), recent);
    if fails as real >= threshold then Some(Failures(ev.identifier, fails)) else None
  }

  function DeleteVerdict(threshold: real, recent: seq<Entry>): Option<Details> {
    var deletes := Count(IsDelete(), recent);
    if deletes as real >= threshold then Some(Deletes(deletes)) else None
  }

  function RouteVerdictOf(ev: Event, recent: seq<Entry>): Option<Details> {
    if |recent| < 10 then None
    else
      var errors := Count(IsError(), recent);
      if Percent(errors, |recent|) < 10.0 then None
      else Some(RouteRate(ev.path, ev.verb, errors, |recent|))
  }

  /** How far back a rule looks. */
  function LookupFrom(rule: Rule, now: int): int {
    if rule.ruleType == VolumeSpike then now - HOUR else now - rule.windowSeconds * SECOND
  }

  /** What the per-event rules decide from the looked-up entries. */
  function Verdict(ev: Event, rule: Rule, now: int, recent: seq<Entry>, sqrt: real -> real): Option<Details> {
    match rule.ruleType
    case VolumeSpike => SpikeVerdict(rule.threshold, recent, now, sqrt)
    case ErrorRate => RateVerdict(rule.threshold, recent)
    case BruteForce => if ev.status != 401 && ev.status != 403 then None else FailureVerdict(rule.threshold, recent, ev)
    case MassDelete => if ev.verb != "DELETE" then None else DeleteVerdict(rule.threshold, recent)
    case SilentService => None
    case ErrorRateByRoute => None
  }

  // ----- cooldown

  predicate Cooling(cooldown: map<string, int>, key: string, check: int, gap: int) {
    key in cooldown && check - cooldown[key] < gap
  }

  /** fire: one critical section that tests and stamps the cooldown. */
  function FireRule(st: State, project: string, service: string, environment: string, rt: RuleType,
                    details: Details, check: int, stamp: int): State {
    var key := CooldownKey(project, rt);
    if Cooling(st.cooldown, key, check, COOLDOWN) then st
    else st.(cooldown := st.cooldown[key := stamp],
             alerts := st.alerts + [Alert(project, service, environment, rt, details, stamp)])
  }

  function FireRoute(st: State, ev: Event, details: Details, check: int, stamp: int): State {
    var key := RouteKey(ev.project, ev.path, ev.verb);
    if Cooling(st.routeCooldown, key, check, ROUTE_COOLDOWN) then st
    else st.(routeCooldown := st.routeCooldown[key := stamp],
             alerts := st.alerts + [Alert(ev.project, ev.service, ev.environment, ErrorRateByRoute, details, stamp)])
  }

  function FireHeld(st: State, h: Held, check: int, stamp: int): State {
    match h
    case RuleVerdict(project, service, environment, rt, details) =>
      FireRule(st, project, service, environment, rt, details, check, stamp)
    case RouteVerdict(ev, details) => FireRoute(st, ev, details, check, stamp)
    case LastArrival(_, _) => st
  }

  predicate SilentTooLong(last: int, now: int, threshold: real) {
    (now - last) as real / MINUTE as real >= threshold
  }

  // ----- steps and runs

  function Hold(st: State, w: nat, h: Option<Held>): State {
    st.(held := if h.Some? then st.held[w := h.value] else st.held - {w})
  }

  /** The verdict of one rule over a window. */
  function Looked(entries: seq<Entry>, ev: Event, rule: Rule, now: int, sqrt: real -> real): Option<Held> {
    var verdict := Verdict(ev, rule, now, Since(entries, LookupFrom(rule, now)), sqrt);
    if verdict.None? then None
    else Some(RuleVerdict(ev.project, ev.service, ev.environment, rule.ruleType, verdict.value))
  }

  function LookedRoute(entries: seq<Entry>, ev: Event, now: int): Option<Held> {
    var verdict := RouteVerdictOf(ev, Since(entries, now - ROUTE_WINDOW));
    if verdict.None? then None else Some(RouteVerdict(ev, verdict.value))
  }

  function LastOf(windows: map<string, Track>, key: string): Option<Held> {
    var last := Get(windows, key).last;
    if last.None? || ':' !in key then None else Some(LastArrival(key, last.value))
  }

  function FireSilent(st: State, h: Held, rule: Rule, now: int, check: int, stamp: int): State {
    if h.LastArrival? && ':' in h.key && rule.active && rule.ruleType == SilentService && SilentTooLong(h.last, now, rule.threshold)
    then FireRule(st, ProjectOf(h.key), ServiceOf(h.key), "unknown", SilentService, Silence(h.last), check, stamp)
    else st
  }

  function Apply(st: State, step: Step, trims: bool, sqrt: real -> real): State {
    match step
    case Add(ev, at) =>
      var key := WindowKey(ev.project, ev.service);
      st.(windows := st.windows[key := Added(Get(st.windows, key), EntryOf(ev), at, trims)])
    case Look(w, ev, rule, now) =>
      Hold(st, w, Looked(Get(st.windows, WindowKey(ev.project, ev.service)).entries, ev, rule, now, sqrt))
    case AddRoute(ev, at) =>
      var key := RouteKey(ev.project, ev.path, ev.verb);
      st.(routes := st.routes[key := Added(Get(st.routes, key), RouteEntryOf(ev), at, trims)])
    case LookRoute(w, ev, now) =>
      Hold(st, w, LookedRoute(Get(st.routes, RouteKey(ev.project, ev.path, ev.verb)).entries, ev, now))
    case Fire(w, check, stamp) =>
      if w in st.held then Hold(FireHeld(st, st.held[w], check, stamp), w, None) else st
    case ReadLast(w, key) => Hold(st, w, LastOf(st.windows, key))
    case Silent(w, rule, now, check, stamp) =>
      if w in st.held then FireSilent(st, st.held[w], rule, now, check, stamp) else st
    case Done(w) => Hold(st, w, None)
  }

  const START := State(map[], map[], map[], map[], [], map[])

  function RunFrom(st: State, steps: seq<Step>, trims: bool, sqrt: real -> real): State {
    if |steps| == 0 then st
    else Apply(RunFrom(st, steps[..|steps| - 1], trims, sqrt), steps[|steps| - 1], trims, sqrt)
  }

  lemma RunOne(st: State, step: Step, trims: bool, sqrt: real -> real)
    ensures RunFrom(st, [step], trims, sqrt) == Apply(st, step, trims, sqrt)
  {
    hide Apply;
    assert [step][..0] == [];
  }

  lemma RunLast(st: State, steps: seq<Step>, step: Step, trims: bool, sqrt: real -> real)
    ensures RunFrom(st, steps + [step], trims, sqrt) == Apply(RunFrom(st, steps, trims, sqrt), step, trims, sqrt)
  {
    hide Apply;
    assert (steps + [step])[..|steps + [step]| - 1] == steps;
  }

  lemma {:induction false} RunAppend(st: State, a: seq<Step>, b: seq<Step>, trims: bool, sqrt: real -> real)
    ensures RunFrom(st, a + b, trims, sqrt) == RunFrom(RunFrom(st, a, trims, sqrt), b, trims, sqrt)
  {
    hide Apply;
    if |b| == 0 {
      assert a + b == a;
    } else {
      assert (a + b)[..|a + b| - 1] == a + b[..|b| - 1];
      RunAppend(st, a, b[..|b| - 1], trims, sqrt);
    }
  }
}
