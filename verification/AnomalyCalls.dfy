/** What one uninterrupted call of the detector does: its steps, and, told on the
    windows, cooldowns and alerts, what they leave. */
module AnomalyCalls {
  import opened Options
  import opened AnomalyKeys
  import opened Anomaly
  import opened AnomalyMeaning

  /** The clock readings of one rule: for the lookup or age test, for the cooldown
      test and for the cooldown stamp. */
  datatype Reading = Reading(now: int, check: int, stamp: int)

  /** The clock readings of one processed event. */
  datatype Times = Times(add: int, read: nat -> Reading, routeAdd: int, route: Reading)

  /** Looking a rule up and, with a verdict, firing. */
  function RulePair(w: nat, ev: Event, rule: Rule, r: Reading): seq<Step> {
    [Look(w, ev, rule, r.now)] + [Fire(w, r.check, r.stamp)]
  }

  function RuleSteps(w: nat, ev: Event, rules: seq<Rule>, read: nat -> Reading): seq<Step> {
    if |rules| == 0 then []
    else RuleSteps(w, ev, rules[..|rules| - 1], read) +
         (if rules[|rules| - 1].active then RulePair(w, ev, rules[|rules| - 1], read(|rules| - 1)) else [])
  }

  function RoutePair(w: nat, ev: Event, r: Reading): seq<Step> {
    [LookRoute(w, ev, r.now)] + [Fire(w, r.check, r.stamp)]
  }

  function RouteSteps(w: nat, ev: Event, times: Times): seq<Step> {
    if ev.path == "" then [] else [AddRoute(ev, times.routeAdd)] + RoutePair(w, ev, times.route)
  }

  /** The steps one event takes; `rules` is None when they could not be loaded. */
  function EventSteps(w: nat, ev: Event, rules: Option<seq<Rule>>, times: Times): seq<Step> {
    [Add(ev, times.add)] + RestSteps(w, ev, rules, times)
  }

  function RestSteps(w: nat, ev: Event, rules: Option<seq<Rule>>, times: Times): seq<Step> {
    if rules.None? then [] else RuleSteps(w, ev, rules.value, times.read) + RouteSteps(w, ev, times)
  }

  /** A verdict held by `w`, fired at once, leaves nothing held. */
  lemma HoldThenFire(st: State, w: nat, h: Option<Held>, check: int, stamp: int, sqrt: real -> real)
    requires st.held == map[]
    ensures Apply(Hold(st, w, h), Fire(w, check, stamp), true, sqrt) == if h.None? then st else FireHeld(st, h.value, check, stamp)
  {
    if h.Some? {
      FireKeepsHeld(st, Hold(st, w, h), h.value, check, stamp);
      assert map[w := h.value] - {w} == map[];
    } else {
      var none: map<nat, Held> := map[];
      assert none - {w} == none;
    }
  }

  lemma FireKeepsHeld(st: State, mid: State, h: Held, check: int, stamp: int)
    requires mid == st.(held := mid.held)
    ensures FireHeld(mid, h, check, stamp) == FireHeld(st, h, check, stamp).(held := mid.held)
    ensures FireHeld(st, h, check, stamp).held == st.held
  {
    hide CooldownKey, RouteKey;
  }

  lemma RunPair(st: State, a: Step, b: Step, sqrt: real -> real)
    ensures RunFrom(st, [a] + [b], true, sqrt) == Apply(Apply(st, a, true, sqrt), b, true, sqrt)
  {
    RunOne(st, a, true, sqrt);
    RunLast(st, [a], b, true, sqrt);
    hide Apply;
  }

  /** Look and fire, with no other caller between them. */
  lemma RulePairRuns(st: State, w: nat, ev: Event, rule: Rule, r: Reading, sqrt: real -> real)
    requires st.held == map[]
    ensures var h := Looked(Get(st.windows, WindowKey(ev.project, ev.service)).entries, ev, rule, r.now, sqrt);
            RunFrom(st, RulePair(w, ev, rule, r), true, sqrt) == if h.None? then st else FireHeld(st, h.value, r.check, r.stamp)
  {
    RunPair(st, Look(w, ev, rule, r.now), Fire(w, r.check, r.stamp), sqrt);
    var h := Looked(Get(st.windows, WindowKey(ev.project, ev.service)).entries, ev, rule, r.now, sqrt);
    HoldThenFire(st, w, h, r.check, r.stamp, sqrt);
    hide Looked, RunFrom, FireHeld, Hold, WindowKey;
  }

  lemma RoutePairRuns(st: State, w: nat, ev: Event, r: Reading, sqrt: real -> real)
    requires st.held == map[]
    ensures var h := LookedRoute(Get(st.routes, RouteKey(ev.project, ev.path, ev.verb)).entries, ev, r.now);
            RunFrom(st, RoutePair(w, ev, r), true, sqrt) == if h.None? then st else FireHeld(st, h.value, r.check, r.stamp)
  {
    RunPair(st, LookRoute(w, ev, r.now), Fire(w, r.check, r.stamp), sqrt);
    var h := LookedRoute(Get(st.routes, RouteKey(ev.project, ev.path, ev.verb)).entries, ev, r.now);
    HoldThenFire(st, w, h, r.check, r.stamp, sqrt);
    hide LookedRoute, RunFrom, FireHeld, Hold, RouteKey;
  }

  lemma AddStep(st: State, ev: Event, at: int, sqrt: real -> real)
    ensures var key := WindowKey(ev.project, ev.service);
            Apply(st, Add(ev, at), true, sqrt) ==
            st.(windows := st.windows[key := Added(Get(st.windows, key), EntryOf(ev), at, true)])
  {
  }

  lemma AddRouteStep(st: State, ev: Event, at: int, sqrt: real -> real)
    ensures var key := RouteKey(ev.project, ev.path, ev.verb);
            Apply(st, AddRoute(ev, at), true, sqrt) ==
            st.(routes := st.routes[key := Added(Get(st.routes, key), RouteEntryOf(ev), at, true)])
  {
  }

  // ----- the silent-service loop

  function ReadAt(read: (nat, nat) -> Reading, i: nat): nat -> Reading { (j: nat) => read(i, j) }

  function SilentRuleSteps(w: nat, rules: seq<Rule>, read: nat -> Reading): seq<Step> {
    if |rules| == 0 then []
    else
      var n := |rules| - 1;
      SilentRuleSteps(w, rules[..n], read) + [Silent(w, rules[n], read(n).now, read(n).check, read(n).stamp)]
  }

  /** The steps of one window; `rules` is None when they could not be loaded. */
  function SilentSteps(w: nat, key: string, rules: Option<seq<Rule>>, read: nat -> Reading): seq<Step> {
    [ReadLast(w, key)] + (if rules.None? then [] else SilentRuleSteps(w, rules.value, read)) + [Done(w)]
  }

  function AllSilentSteps(w: nat, keys: seq<string>, rulesOf: string -> Option<seq<Rule>>, read: (nat, nat) -> Reading): seq<Step> {
    if |keys| == 0 then []
    else
      var n := |keys| - 1;
      AllSilentSteps(w, keys[..n], rulesOf, read) + SilentSteps(w, keys[n], rulesOf(ProjectOf(keys[n])), ReadAt(read, n))
  }

  /** Firing for one rule after another on the same last arrival. */
  function FireAll(st: State, h: Held, rules: seq<Rule>, read: nat -> Reading): State {
    if |rules| == 0 then st
    else
      var n := |rules| - 1;
      FireSilent(FireAll(st, h, rules[..n], read), h, rules[n], read(n).now, read(n).check, read(n).stamp)
  }

  lemma SilentKeepsHeld(st: State, mid: State, h: Held, rule: Rule, r: Reading)
    requires mid == st.(held := mid.held)
    ensures FireSilent(mid, h, rule, r.now, r.check, r.stamp) == FireSilent(st, h, rule, r.now, r.check, r.stamp).(held := mid.held)
    ensures FireSilent(st, h, rule, r.now, r.check, r.stamp).held == st.held
  {
    hide CooldownKey, SilentTooLong, ProjectOf, ServiceOf;
  }

  /** While a last arrival is held, the rules' steps fire one after another. */
  lemma {:induction false} SilentRulesRun(st: State, w: nat, h: Held, rules: seq<Rule>, read: nat -> Reading, sqrt: real -> real)
    ensures var held := st.held[w := h];
            RunFrom(st.(held := held), SilentRuleSteps(w, rules, read), true, sqrt) == FireAll(st, h, rules, read).(held := held)
    ensures FireAll(st, h, rules, read).held == st.held
  {
    if |rules| > 0 {
      var n := |rules| - 1;
      var front, held := rules[..n], st.held[w := h];
      SilentRulesRun(st, w, h, front, read, sqrt);
      var before := FireAll(st, h, front, read);
      RunLast(st.(held := held), SilentRuleSteps(w, front, read), Silent(w, rules[n], read(n).now, read(n).check, read(n).stamp), true, sqrt);
      SilentKeepsHeld(before, before.(held := held), h, rules[n], read(n));
      hide FireSilent, RunFrom, Apply;
      SilentFires(before.(held := held), w, h, rules[n], read(n), sqrt);
    }
  }

  lemma SilentFires(st: State, w: nat, h: Held, rule: Rule, r: Reading, sqrt: real -> real)
    requires w in st.held && st.held[w] == h
    ensures Apply(st, Silent(w, rule, r.now, r.check, r.stamp), true, sqrt) == FireSilent(st, h, rule, r.now, r.check, r.stamp)
  {
    hide FireSilent;
  }

  /** Without one they do nothing. */
  lemma {:induction false} SilentRulesIdle(st: State, w: nat, rules: seq<Rule>, read: nat -> Reading, sqrt: real -> real)
    requires w !in st.held
    ensures RunFrom(st, SilentRuleSteps(w, rules, read), true, sqrt) == st
  {
    if |rules| > 0 {
      var n := |rules| - 1;
      SilentRulesIdle(st, w, rules[..n], read, sqrt);
      RunLast(st, SilentRuleSteps(w, rules[..n], read), Silent(w, rules[n], read(n).now, read(n).check, read(n).stamp), true, sqrt);
      hide RunFrom;
    }
  }

  /** A window of the silent-service loop, with no other caller in between: the
      rules fire on the last arrival it read, and a window nothing has arrived in
      raises no alert. */
  lemma SilentRuns(st: State, w: nat, key: string, rules: Option<seq<Rule>>, read: nat -> Reading, sqrt: real -> real)
    requires st.held == map[] && ':' in key
    ensures var last := Get(st.windows, key).last;
            RunFrom(st, SilentSteps(w, key, rules, read), true, sqrt) ==
            if last.None? || rules.None? then st else FireAll(st, LastArrival(key, last.value), rules.value, read)
  {
    var last := Get(st.windows, key).last;
    var middle := if rules.None? then [] else SilentRuleSteps(w, rules.value, read);
    var mid := Apply(st, ReadLast(w, key), true, sqrt);
    var none: map<nat, Held> := map[];
    assert none - {w} == none;
    RunOne(st, ReadLast(w, key), true, sqrt);
    RunAppend(st, [ReadLast(w, key)], middle, true, sqrt);
    RunLast(st, [ReadLast(w, key)] + middle, Done(w), true, sqrt);
    if last.None? {
      assert mid == st;
      if rules.Some? { SilentRulesIdle(st, w, rules.value, read, sqrt); }
      hide RunFrom, SilentRuleSteps;
    } else {
      var h := LastArrival(key, last.value);
      assert mid == st.(held := map[w := h]) && map[w := h] - {w} == map[];
      if rules.Some? { SilentRulesRun(st, w, h, rules.value, read, sqrt); }
      hide RunFrom, SilentRuleSteps, FireAll;
    }
  }

  // ----- what a call leaves

  /** One rule on the entries of a window: nothing when it is not active. */
  ghost predicate RuleHandled(s: State, s': State, ev: Event, rule: Rule, entries: seq<Entry>, r: Reading, sqrt: real -> real) {
    exists v :: Reached(v, ev, rule, r.now, entries, sqrt) &&
      if rule.active then RuleTried(s, s', ev.project, ev.service, ev.environment, rule.ruleType, v, r.check, r.stamp) else s' == s
  }

  /** The rules in their order, each on what the last left. */
  ghost predicate RulesHandled(s: State, s': State, ev: Event, rules: seq<Rule>, entries: seq<Entry>, read: nat -> Reading,
                               sqrt: real -> real) {
    exists states: seq<State> :: |states| == |rules| + 1 && states[0] == s && states[|rules|] == s' &&
      forall i :: 0 <= i < |rules| ==> RuleHandled(states[i], states[i + 1], ev, rules[i], entries, read(i), sqrt)
  }

  /** The route check, for an event with a path. */
  ghost predicate RouteHandled(s: State, s': State, ev: Event, times: Times) {
    if ev.path == "" then s' == s
    else
      var key := RouteKey(ev.project, ev.path, ev.verb);
      exists w, v :: Appended(Get(s.routes, key), w, Entry(ev.timestamp, ev.status, ev.verb, ""), times.routeAdd) &&
        RouteReached(v, w.entries, times.route.now, ev) &&
        RouteTried(s.(routes := s.routes[key := w]), s', ev, v, times.route.check, times.route.stamp)
  }

  /** Unless its rules could not be loaded, every active one is tried, then the route
      checked. */
  ghost predicate RestHandled(added: State, s': State, ev: Event, rules: Option<seq<Rule>>, entries: seq<Entry>, times: Times,
                              sqrt: real -> real) {
    if rules.None? then s' == added
    else exists mid :: RulesHandled(added, mid, ev, rules.value, entries, times.read, sqrt) && RouteHandled(mid, s', ev, times)
  }

  /** One event: its entry is added to its service's window, and the checks follow. */
  ghost predicate EventHandled(s: State, s': State, ev: Event, rules: Option<seq<Rule>>, times: Times, sqrt: real -> real) {
    var key := WindowKey(ev.project, ev.service);
    exists w :: Appended(Get(s.windows, key), w, Entry(ev.timestamp, ev.status, ev.verb, ev.identifier), times.add) &&
      RestHandled(s.(windows := s.windows[key := w]), s', ev, rules, w.entries, times, sqrt)
  }

  lemma RulePairHandled(s: State, w: nat, ev: Event, rule: Rule, r: Reading, sqrt: real -> real)
    requires s.held == map[]
    ensures var s' := RunFrom(s, RulePair(w, ev, rule, r), true, sqrt);
            rule.active ==>
              RuleHandled(s, s', ev, rule, Get(s.windows, WindowKey(ev.project, ev.service)).entries, r, sqrt) &&
              s'.windows == s.windows && s'.held == map[]
  {
    var entries := Get(s.windows, WindowKey(ev.project, ev.service)).entries;
    var v := Verdict(ev, rule, r.now, Since(entries, LookupFrom(rule, r.now)), sqrt);
    RulePairRuns(s, w, ev, rule, r, sqrt);
    VerdictIsReached(ev, rule, r.now, entries, sqrt);
    if v.Some? {
      FireMeans(s, ev.project, ev.service, ev.environment, rule.ruleType, v.value, r.check, r.stamp);
    } else {
      NothingTried(s, ev.project, ev.service, ev.environment, rule.ruleType, r.check, r.stamp);
    }
    FireLeaves(s, ev.project, ev.service, ev.environment, rule.ruleType, if v.Some? then v.value else Silence(0), r.check, r.stamp);
    hide Verdict, Since, LookupFrom, Reached, RuleTried, FireRule, RunFrom, RulePair, WindowKey;
  }

  lemma NothingTried(s: State, project: string, service: string, environment: string, rt: RuleType, check: int, stamp: int)
    ensures RuleTried(s, s, project, service, environment, rt, None, check, stamp)
  {
  }

  lemma FireLeaves(s: State, project: string, service: string, environment: string, rt: RuleType, details: Details, check: int, stamp: int)
    ensures var s' := FireRule(s, project, service, environment, rt, details, check, stamp);
            s'.windows == s.windows && s'.held == s.held && s'.routes == s.routes
  {
    hide CooldownKey;
  }

  lemma RulesExtend(s: State, mid: State, s': State, ev: Event, rules: seq<Rule>, rule: Rule, entries: seq<Entry>,
                    read: nat -> Reading, sqrt: real -> real)
    requires RulesHandled(s, mid, ev, rules, entries, read, sqrt)
    requires RuleHandled(mid, s', ev, rule, entries, read(|rules|), sqrt)
    ensures RulesHandled(s, s', ev, rules + [rule], entries, read, sqrt)
  {
    hide RuleHandled;
    var states: seq<State> :| |states| == |rules| + 1 && states[0] == s && states[|rules|] == mid &&
      forall i :: 0 <= i < |rules| ==> RuleHandled(states[i], states[i + 1], ev, rules[i], entries, read(i), sqrt);
    var all, more := rules + [rule], states + [s'];
    assert more[|all|] == s' && more[0] == s;
    forall i | 0 <= i < |all| ensures RuleHandled(more[i], more[i + 1], ev, all[i], entries, read(i), sqrt) {
      if i < |rules| { assert all[i] == rules[i]; }
    }
  }

  lemma RulesNone(s: State, ev: Event, entries: seq<Entry>, read: nat -> Reading, sqrt: real -> real)
    ensures RulesHandled(s, s, ev, [], entries, read, sqrt)
  {
    var states := [s];
    assert |states| == 1 && states[0] == s;
  }

  lemma InactiveHandled(s: State, ev: Event, rule: Rule, entries: seq<Entry>, r: Reading, sqrt: real -> real)
    requires !rule.active
    ensures RuleHandled(s, s, ev, rule, entries, r, sqrt)
  {
    VerdictIsReached(ev, rule, r.now, entries, sqrt);
    hide Verdict, Reached, Since, LookupFrom;
  }

  lemma {:induction false} RuleStepsHandled(s: State, w: nat, ev: Event, rules: seq<Rule>, read: nat -> Reading, sqrt: real -> real)
    requires s.held == map[]
    ensures var s' := RunFrom(s, RuleSteps(w, ev, rules, read), true, sqrt);
            && RulesHandled(s, s', ev, rules, Get(s.windows, WindowKey(ev.project, ev.service)).entries, read, sqrt)
            && s'.windows == s.windows && s'.held == map[]
  {
    var entries := Get(s.windows, WindowKey(ev.project, ev.service)).entries;
    hide RuleHandled, RulesHandled, RunFrom, RulePair, WindowKey;
    if |rules| == 0 {
      RulesNone(s, ev, entries, read, sqrt);
      RunNone(s, sqrt);
    } else {
      var front, rule := rules[..|rules| - 1], rules[|rules| - 1];
      assert rules == front + [rule];
      RuleStepsHandled(s, w, ev, front, read, sqrt);
      var mid := RunFrom(s, RuleSteps(w, ev, front, read), true, sqrt);
      if rule.active {
        RunAppend(s, RuleSteps(w, ev, front, read), RulePair(w, ev, rule, read(|front|)), true, sqrt);
        RulePairHandled(mid, w, ev, rule, read(|front|), sqrt);
        RulesExtend(s, mid, RunFrom(mid, RulePair(w, ev, rule, read(|front|)), true, sqrt), ev, front, rule, entries, read, sqrt);
      } else {
        assert RuleSteps(w, ev, front, read) + [] == RuleSteps(w, ev, front, read);
        InactiveHandled(mid, ev, rule, entries, read(|front|), sqrt);
        RulesExtend(s, mid, mid, ev, front, rule, entries, read, sqrt);
      }
    }
  }

  lemma RunNone(s: State, sqrt: real -> real)
    ensures RunFrom(s, [], true, sqrt) == s
  {
  }

  lemma RouteAdded(s: State, ev: Event, at: int, sqrt: real -> real)
    ensures var key := RouteKey(ev.project, ev.path, ev.verb);
            var t := Added(Get(s.routes, key), RouteEntryOf(ev), at, true);
            && Appended(Get(s.routes, key), t, Entry(ev.timestamp, ev.status, ev.verb, ""), at)
            && RunFrom(s, [AddRoute(ev, at)], true, sqrt) == s.(routes := s.routes[key := t])
            && Get(s.routes[key := t], key) == t
  {
    AddRouteStep(s, ev, at, sqrt);
    AddedMeans(Get(s.routes, RouteKey(ev.project, ev.path, ev.verb)), RouteEntryOf(ev), at);
    RunOne(s, AddRoute(ev, at), true, sqrt);
    hide RouteKey, Added, Appended, Apply, RunFrom;
  }

  lemma RouteFires(s: State, entries: seq<Entry>, ev: Event, r: Reading)
    ensures var h := LookedRoute(entries, ev, r.now);
            var v := RouteVerdictOf(ev, Since(entries, r.now - ROUTE_WINDOW));
            (if h.None? then s else FireHeld(s, h.value, r.check, r.stamp)) ==
            if v.None? then s else FireRoute(s, ev, v.value, r.check, r.stamp)
  {
    hide RouteVerdictOf, Since, FireRoute;
  }

  lemma RoutePairHandled(s: State, w: nat, ev: Event, r: Reading, sqrt: real -> real)
    requires s.held == map[]
    ensures var entries := Get(s.routes, RouteKey(ev.project, ev.path, ev.verb)).entries;
            exists v :: RouteReached(v, entries, r.now, ev) &&
              RouteTried(s, RunFrom(s, RoutePair(w, ev, r), true, sqrt), ev, v, r.check, r.stamp)
  {
    hide *;
    var entries := Get(s.routes, RouteKey(ev.project, ev.path, ev.verb)).entries;
    var v := RouteVerdictOf(ev, Since(entries, r.now - ROUTE_WINDOW));
    RoutePairRuns(s, w, ev, r, sqrt);
    RouteFires(s, entries, ev, r);
    RouteMeans(entries, r.now, ev);
    if v.Some? {
      FireRouteMeans(s, ev, v.value, r.check, r.stamp);
    } else {
      NoRouteTried(s, ev, r.check, r.stamp);
    }
  }

  lemma NoRouteTried(s: State, ev: Event, check: int, stamp: int)
    ensures RouteTried(s, s, ev, None, check, stamp)
  {
  }

  lemma RouteStepsHandled(s: State, w: nat, ev: Event, times: Times, sqrt: real -> real)
    requires s.held == map[]
    ensures RouteHandled(s, RunFrom(s, RouteSteps(w, ev, times), true, sqrt), ev, times)
  {
    hide Added, RunFrom, RoutePair, RouteKey, Appended, RouteReached, RouteTried, Get;
    if ev.path == "" {
      RunNone(s, sqrt);
    } else {
      var key := RouteKey(ev.project, ev.path, ev.verb);
      var mid := s.(routes := s.routes[key := Added(Get(s.routes, key), RouteEntryOf(ev), times.routeAdd, true)]);
      RouteAdded(s, ev, times.routeAdd, sqrt);
      RunAppend(s, [AddRoute(ev, times.routeAdd)], RoutePair(w, ev, times.route), true, sqrt);
      RoutePairHandled(mid, w, ev, times.route, sqrt);
    }
  }

  lemma EventAdded(s: State, ev: Event, at: int, sqrt: real -> real)
    ensures var key := WindowKey(ev.project, ev.service);
            var t := Added(Get(s.windows, key), EntryOf(ev), at, true);
            && Appended(Get(s.windows, key), t, Entry(ev.timestamp, ev.status, ev.verb, ev.identifier), at)
            && RunFrom(s, [Add(ev, at)], true, sqrt) == s.(windows := s.windows[key := t])
            && Get(s.windows[key := t], key) == t
  {
    AddStep(s, ev, at, sqrt);
    AddedMeans(Get(s.windows, WindowKey(ev.project, ev.service)), EntryOf(ev), at);
    RunOne(s, Add(ev, at), true, sqrt);
    hide WindowKey, Added, Appended, Apply, RunFrom;
  }

  lemma RestStepsHandled(s: State, w: nat, ev: Event, rules: Option<seq<Rule>>, times: Times, sqrt: real -> real)
    requires s.held == map[]
    ensures RestHandled(s, RunFrom(s, RestSteps(w, ev, rules, times), true, sqrt), ev, rules,
                        Get(s.windows, WindowKey(ev.project, ev.service)).entries, times, sqrt)
  {
    hide RunFrom, RuleSteps, RouteSteps, WindowKey, RulesHandled, RouteHandled, Get;
    if rules.None? {
      RunNone(s, sqrt);
    } else {
      RunAppend(s, RuleSteps(w, ev, rules.value, times.read), RouteSteps(w, ev, times), true, sqrt);
      RuleStepsHandled(s, w, ev, rules.value, times.read, sqrt);
      RouteStepsHandled(RunFrom(s, RuleSteps(w, ev, rules.value, times.read), true, sqrt), w, ev, times, sqrt);
    }
  }

  /** The steps of an event, one part after another. */
  lemma EventRuns(s: State, w: nat, ev: Event, rules: Option<seq<Rule>>, times: Times, sqrt: real -> real)
    ensures var added := Apply(s, Add(ev, times.add), true, sqrt);
            RunFrom(s, EventSteps(w, ev, rules, times), true, sqrt) ==
            if rules.None? then added
            else RunFrom(RunFrom(added, RuleSteps(w, ev, rules.value, times.read), true, sqrt), RouteSteps(w, ev, times), true, sqrt)
  {
    var added := Apply(s, Add(ev, times.add), true, sqrt);
    RunOne(s, Add(ev, times.add), true, sqrt);
    RunAppend(s, [Add(ev, times.add)], RestSteps(w, ev, rules, times), true, sqrt);
    RunNone(added, sqrt);
    hide Apply, RunFrom, RuleSteps, RouteSteps;
    if rules.Some? { RunAppend(added, RuleSteps(w, ev, rules.value, times.read), RouteSteps(w, ev, times), true, sqrt); }
  }

  /** One call of ProcessEvent, uninterrupted. */
  lemma EventStepsHandled(s: State, w: nat, ev: Event, rules: Option<seq<Rule>>, times: Times, sqrt: real -> real)
    requires s.held == map[]
    ensures EventHandled(s, RunFrom(s, EventSteps(w, ev, rules, times), true, sqrt), ev, rules, times, sqrt)
  {
    hide Added, RunFrom, RestSteps, WindowKey, Appended, RestHandled, Get;
    var key := WindowKey(ev.project, ev.service);
    var added := s.(windows := s.windows[key := Added(Get(s.windows, key), EntryOf(ev), times.add, true)]);
    EventAdded(s, ev, times.add, sqrt);
    RunAppend(s, [Add(ev, times.add)], RestSteps(w, ev, rules, times), true, sqrt);
    RestStepsHandled(added, w, ev, rules, times, sqrt);
  }

  // ----- and the silent-service loop

  /** One rule on the last arrival of a window: an active silent-service rule raises
      its alert, for the project and service of the window's key, when the arrival
      lies at least its threshold of minutes back. */
  ghost predicate SilenceHandled(s: State, s': State, key: string, last: int, rule: Rule, r: Reading) {
    exists project, service :: key == project + ":" + service && ':' !in project &&
      if rule.active && rule.ruleType == SilentService && (r.now - last) as real >= rule.threshold * 60_000_000_000.0
      then RuleTried(s, s', project, service, "unknown", SilentService, Some(Silence(last)), r.check, r.stamp)
      else s' == s
  }

  /** One window: nothing before its first arrival, or without rules. */
  ghost predicate ServiceHandled(s: State, s': State, key: string, rules: Option<seq<Rule>>, read: nat -> Reading) {
    var last := Get(s.windows, key).last;
    if last.None? || rules.None? then s' == s
    else
      exists states: seq<State> :: |states| == |rules.value| + 1 && states[0] == s && states[|rules.value|] == s' &&
        forall i :: 0 <= i < |rules.value| ==>
          SilenceHandled(states[i], states[i + 1], key, last.value, rules.value[i], read(i))
  }

  lemma KeySplits(key: string)
    requires ':' in key
    ensures key == ProjectOf(key) + ":" + ServiceOf(key) && ':' !in ProjectOf(key)
  {
    var i := FirstColonAt(key);
    assert key[..|key|] == key;
    assert key == key[..i] + [key[i]] + key[i + 1..];
  }

  lemma SilentHandled(s: State, key: string, last: int, rule: Rule, r: Reading)
    requires ':' in key
    ensures SilenceHandled(s, FireSilent(s, LastArrival(key, last), rule, r.now, r.check, r.stamp), key, last, rule, r)
  {
    KeySplits(key);
    SilentMeans(last, r.now, rule.threshold);
    FireMeans(s, ProjectOf(key), ServiceOf(key), "unknown", SilentService, Silence(last), r.check, r.stamp);
    hide ProjectOf, ServiceOf, FireRule, RuleTried, SilentTooLong;
  }

  lemma {:induction false} FireAllHandled(s: State, key: string, last: int, rules: seq<Rule>, read: nat -> Reading)
    requires ':' in key
    ensures exists states: seq<State> :: |states| == |rules| + 1 && states[0] == s &&
              states[|rules|] == FireAll(s, LastArrival(key, last), rules, read) &&
              forall i :: 0 <= i < |rules| ==> SilenceHandled(states[i], states[i + 1], key, last, rules[i], read(i))
  {
    hide SilenceHandled, FireSilent;
    var h := LastArrival(key, last);
    if |rules| == 0 {
      var states := [s];
      assert |states| == 1 && states[0] == s && states[|rules|] == FireAll(s, h, rules, read);
    } else {
      var n, front := |rules| - 1, rules[..|rules| - 1];
      FireAllHandled(s, key, last, front, read);
      var states: seq<State> :| |states| == n + 1 && states[0] == s && states[n] == FireAll(s, h, front, read) &&
        forall i :: 0 <= i < n ==> SilenceHandled(states[i], states[i + 1], key, last, front[i], read(i));
      SilentHandled(states[n], key, last, rules[n], read(n));
      var more := states + [FireAll(s, h, rules, read)];
      forall i | 0 <= i < |rules| ensures SilenceHandled(more[i], more[i + 1], key, last, rules[i], read(i)) {
        if i < n { assert front[i] == rules[i]; }
      }
      assert more[0] == s && more[|rules|] == FireAll(s, h, rules, read);
    }
  }

  /** One window of the loop, uninterrupted. */
  lemma SilentStepsHandled(s: State, w: nat, key: string, rules: Option<seq<Rule>>, read: nat -> Reading, sqrt: real -> real)
    requires s.held == map[] && ':' in key
    ensures ServiceHandled(s, RunFrom(s, SilentSteps(w, key, rules, read), true, sqrt), key, rules, read)
  {
    var last := Get(s.windows, key).last;
    SilentRuns(s, w, key, rules, read, sqrt);
    hide RunFrom, SilentSteps, FireAll, SilenceHandled, Get;
    if last.Some? && rules.Some? { FireAllHandled(s, key, last.value, rules.value, read); }
  }

  /** The windows one after another, each with the rules of the project in its key. */
  ghost predicate ServicesHandled(s: State, s': State, keys: seq<string>, rulesOf: string -> Option<seq<Rule>>,
                                  read: (nat, nat) -> Reading) {
    exists states: seq<State> :: |states| == |keys| + 1 && states[0] == s && states[|keys|] == s' &&
      forall i :: 0 <= i < |keys| ==> ServiceHandled(states[i], states[i + 1], keys[i], rulesOf(ProjectOf(keys[i])), ReadAt(read, i))
  }

  lemma NoServicesHandled(s: State, rulesOf: string -> Option<seq<Rule>>, read: (nat, nat) -> Reading)
    ensures ServicesHandled(s, s, [], rulesOf, read)
  {
    var states := [s];
    assert |states| == 1 && states[0] == s;
  }

  lemma ServicesExtend(s: State, mid: State, s': State, keys: seq<string>, key: string, rulesOf: string -> Option<seq<Rule>>,
                       read: (nat, nat) -> Reading)
    requires ServicesHandled(s, mid, keys, rulesOf, read)
    requires ServiceHandled(mid, s', key, rulesOf(ProjectOf(key)), ReadAt(read, |keys|))
    ensures ServicesHandled(s, s', keys + [key], rulesOf, read)
  {
    hide ServiceHandled, ReadAt, ProjectOf;
    var states: seq<State> :| |states| == |keys| + 1 && states[0] == s && states[|keys|] == mid &&
      forall i :: 0 <= i < |keys| ==> ServiceHandled(states[i], states[i + 1], keys[i], rulesOf(ProjectOf(keys[i])), ReadAt(read, i));
    var all, more := keys + [key], states + [s'];
    assert more[|all|] == s' && more[0] == s;
    forall i | 0 <= i < |all| ensures ServiceHandled(more[i], more[i + 1], all[i], rulesOf(ProjectOf(all[i])), ReadAt(read, i)) {
      if i < |keys| { assert all[i] == keys[i]; }
    }
  }
}
