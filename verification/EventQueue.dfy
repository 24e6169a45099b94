/** Events between the queue, the workers' hands, the store and the detector,
    under every interleaving of writers, workers, scaling and shutdown. */
module EventQueue {

  /** What a queue item is: whether it decodes, and whether it is a system alert. */
  datatype Item = Item(id: nat, decodable: bool, alert: bool)

  /** A worker is between selects (Idle), holds an undecoded item, is trying to
      store one after some failures, passes a stored one to the detector, or has
      returned. */
  datatype Phase = Idle | Holding(item: Item) | Trying(item: Item, failures: nat) | Detecting(item: Item) | Exited

  datatype Drop = Undecodable(item: Item) | Exhausted(item: Item, attempts: nat)

  /** What a store call reports; an INSERT may commit and still report an error. */
  datatype Outcome = Works | Breaks | CommitsThenBreaks

  /** `unreported` lists the items whose INSERT committed but reported an error. */
  datatype State = State(
    queue: seq<Item>, workers: seq<Phase>, monitorRunning: bool, returned: bool,
    enqueued: seq<Item>, stored: seq<Item>, dropped: seq<Drop>, seen: seq<Item>, unreported: seq<Item>)

  datatype Config = Config(maxRetries: nat, hasDetector: bool)

  datatype Step =
    | Enqueue(item: Item)
    | Launch
    | Dequeue(w: nat)
    | Decode(w: nat)
    | Attempt(w: nat, outcome: Outcome)
    | GiveUp(w: nat)
    | Detect(w: nat)
    | Exit(w: nat)
    | MonitorExit
    | Return

  const START := State([], [], true, false, [], [], [], [], [])

  predicate AllExited(workers: seq<Phase>) {
    forall i :: 0 <= i < |workers| ==> workers[i].Exited?
  }

  /** Workers look at their stop channel and the context only when idle; Start
      returns only when every worker and the monitor have. */
  predicate Enabled(c: Config, st: State, step: Step) {
    match step
    case Enqueue(_) => true
    case Launch => !st.returned
    case Dequeue(w) => w < |st.workers| && st.workers[w].Idle? && |st.queue| > 0
    case Decode(w) => w < |st.workers| && st.workers[w].Holding?
    case Attempt(w, _) => w < |st.workers| && st.workers[w].Trying? && st.workers[w].failures < c.maxRetries
    case GiveUp(w) => w < |st.workers| && st.workers[w].Trying? && st.workers[w].failures >= c.maxRetries
    case Detect(w) => w < |st.workers| && st.workers[w].Detecting?
    case Exit(w) => w < |st.workers| && st.workers[w].Idle?
    case MonitorExit => st.monitorRunning
    case Return => !st.monitorRunning && AllExited(st.workers)
  }

  function AfterStore(c: Config, item: Item): Phase {
    if c.hasDetector && !item.alert then Detecting(item) else Idle
  }

  /** The primary key of the table: an id is stored once. */
  predicate HasId(stored: seq<Item>, id: nat) {
    exists i :: 0 <= i < |stored| && stored[i].id == id
  }

  function Apply(c: Config, st: State, step: Step): State
    requires Enabled(c, st, step)
  {
    match step
    case Enqueue(item) => st.(queue := st.queue + [item], enqueued := st.enqueued + [item])
    case Launch => st.(workers := st.workers + [Idle])
    case Dequeue(w) => st.(queue := st.queue[1..], workers := st.workers[w := Holding(st.queue[0])])
    case Decode(w) =>
      var item := st.workers[w].item;
      if item.decodable then st.(workers := st.workers[w := Trying(item, 0)])
      else st.(workers := st.workers[w := Idle], dropped := st.dropped + [Undecodable(item)])
    case Attempt(w, outcome) =>
      var (item, k) := (st.workers[w].item, st.workers[w].failures);
      if outcome == Breaks || HasId(st.stored, item.id) then st.(workers := st.workers[w := Trying(item, k + 1)])
      else if outcome == Works then st.(workers := st.workers[w := AfterStore(c, item)], stored := st.stored + [item])
      else
        st.(workers := st.workers[w := Trying(item, k + 1)],
            stored := st.stored + [item], unreported := st.unreported + [item])
    case GiveUp(w) =>
      var (item, k) := (st.workers[w].item, st.workers[w].failures);
      st.(workers := st.workers[w := Idle], dropped := st.dropped + [Exhausted(item, k)])
    case Detect(w) => st.(workers := st.workers[w := Idle], seen := st.seen + [st.workers[w].item])
    case Exit(w) => st.(workers := st.workers[w := Exited])
    case MonitorExit => st.(monitorRunning := false)
    case Return => st.(returned := true)
  }

  // ----- where an item can be

  function Tally<T>(f: T -> nat, s: seq<T>): nat {
    if |s| == 0 then 0 else Tally(f, s[..|s| - 1]) + f(s[|s| - 1])
  }

  function Is(x: Item): Item -> nat { (i: Item) => if i == x then 1 else 0 }

  /** A worker has taken x but neither stored nor dropped it. */
  function Holds(x: Item): Phase -> nat {
    (p: Phase) => if (p.Holding? || p.Trying?) && p.item == x then 1 else 0
  }

  function Passes(x: Item): Phase -> nat {
    (p: Phase) => if p.Detecting? && p.item == x then 1 else 0
  }

  function Drops(x: Item): Drop -> nat { (d: Drop) => if d.item == x then 1 else 0 }

  predicate ForDetector(c: Config, x: Item) { c.hasDetector && !x.alert }

  lemma TallyLast<T(!new)>(f: T -> nat, s: seq<T>, e: T)
    ensures Tally(f, s + [e]) == Tally(f, s) + f(e)
  {
    assert (s + [e])[..|s|] == s;
  }

  lemma {:induction false} TallyHead<T(!new)>(f: T -> nat, s: seq<T>)
    requires |s| > 0
    ensures Tally(f, s) == f(s[0]) + Tally(f, s[1..])
  {
    if |s| > 1 {
      TallyHead(f, s[..|s| - 1]);
      assert s[..|s| - 1][1..] == s[1..][..|s| - 2];
    }
  }

  lemma {:induction false} TallyUpdate<T(!new)>(f: T -> nat, s: seq<T>, w: nat, e: T)
    requires w < |s|
    ensures Tally(f, s[w := e]) + f(s[w]) == Tally(f, s) + f(e)
  {
    var front := s[..|s| - 1];
    if w == |s| - 1 {
      assert s[w := e][..|s| - 1] == front;
    } else {
      assert s[w := e][..|s| - 1] == front[w := e];
      TallyUpdate(f, front, w, e);
    }
  }

  lemma {:induction false} TallyZero<T(!new)>(f: T -> nat, s: seq<T>)
    requires forall i :: 0 <= i < |s| ==> f(s[i]) == 0
    ensures Tally(f, s) == 0
  {
    if |s| > 0 { TallyZero(f, s[..|s| - 1]); }
  }

  /** However often x was enqueued, that is how often it is in the queue, in a
      worker's hand, stored, or dropped. */
  ghost predicate Conserved(st: State, x: Item) {
    Tally(Is(x), st.enqueued) ==
    Tally(Is(x), st.queue) + Tally(Holds(x), st.workers) + Tally(Is(x), st.stored) + Tally(Drops(x), st.dropped)
  }

  /** The detector has seen, or is about to see, each stored non-alert once. */
  ghost predicate Detected(c: Config, st: State, x: Item) {
    Tally(Is(x), st.seen) + Tally(Passes(x), st.workers) == if ForDetector(c, x) then Tally(Is(x), st.stored) else 0
  }

  /** The exact account: an item stored without report is in two places, and the
      detector is not shown it. */
  ghost predicate Accounted(c: Config, st: State, x: Item) {
    && Tally(Is(x), st.enqueued) + Tally(Is(x), st.unreported) ==
       Tally(Is(x), st.queue) + Tally(Holds(x), st.workers) + Tally(Is(x), st.stored) + Tally(Drops(x), st.dropped)
    && Tally(Is(x), st.seen) + Tally(Passes(x), st.workers) +
       (if ForDetector(c, x) then Tally(Is(x), st.unreported) else 0) ==
       (if ForDetector(c, x) then Tally(Is(x), st.stored) else 0)
  }

  ghost predicate PhaseOk(c: Config, p: Phase) {
    && (p.Trying? ==> p.item.decodable && p.failures <= c.maxRetries)
    && (p.Detecting? ==> ForDetector(c, p.item))
  }

  /** Items are dropped only undecoded, or after exactly MaxRetries failures. */
  ghost predicate DropOk(c: Config, d: Drop) {
    if d.Undecodable? then !d.item.decodable else d.item.decodable && d.attempts == c.maxRetries
  }

  ghost predicate Justified(c: Config, st: State) {
    && (forall i :: 0 <= i < |st.workers| ==> PhaseOk(c, st.workers[i]))
    && (forall i :: 0 <= i < |st.dropped| ==> DropOk(c, st.dropped[i]))
    && (st.returned ==> !st.monitorRunning && AllExited(st.workers))
  }

  ghost predicate IsSuffix(q: seq<Item>, e: seq<Item>) {
    |q| <= |e| && e[|e| - |q|..] == q
  }

  /** The queue holds the most recently enqueued items, in order. */
  ghost predicate Fifo(st: State) { IsSuffix(st.queue, st.enqueued) }

  lemma SuffixLast(q: seq<Item>, e: seq<Item>, x: Item)
    requires IsSuffix(q, e)
    ensures IsSuffix(q + [x], e + [x])
  {
    assert (e + [x])[|e| - |q|..] == e[|e| - |q|..] + [x];
  }

  lemma SuffixTail(q: seq<Item>, e: seq<Item>)
    requires IsSuffix(q, e) && |q| > 0
    ensures IsSuffix(q[1..], e)
  {
    assert e[|e| - |q|..][1..] == e[|e| - |q| + 1..];
  }

  /** A worker's phase changes: the items it holds and passes on move with it. */
  lemma PhaseMoves(workers: seq<Phase>, w: nat, p: Phase, x: Item)
    requires w < |workers|
    ensures Tally(Holds(x), workers[w := p]) + Holds(x)(workers[w]) == Tally(Holds(x), workers) + Holds(x)(p)
    ensures Tally(Passes(x), workers[w := p]) + Passes(x)(workers[w]) == Tally(Passes(x), workers) + Passes(x)(p)
  {
    hide Tally;
    TallyUpdate(Holds(x), workers, w, p);
    TallyUpdate(Passes(x), workers, w, p);
  }

  predicate Refused(st: State, item: Item, outcome: Outcome) { outcome == Breaks || HasId(st.stored, item.id) }

  function Retrying(st: State, w: nat): State
    requires w < |st.workers| && st.workers[w].Trying?
  {
    st.(workers := st.workers[w := Trying(st.workers[w].item, st.workers[w].failures + 1)])
  }

  function Storing(c: Config, st: State, w: nat): State
    requires w < |st.workers| && st.workers[w].Trying?
  {
    st.(workers := st.workers[w := AfterStore(c, st.workers[w].item)], stored := st.stored + [st.workers[w].item])
  }

  function Unreporting(st: State, item: Item): State {
    st.(stored := st.stored + [item], unreported := st.unreported + [item])
  }

  lemma AttemptIs(c: Config, st: State, w: nat, outcome: Outcome)
    requires Enabled(c, st, Attempt(w, outcome))
    ensures Apply(c, st, Attempt(w, outcome)) ==
            if Refused(st, st.workers[w].item, outcome) then Retrying(st, w)
            else if outcome == Works then Storing(c, st, w)
            else Retrying(Unreporting(st, st.workers[w].item), w)
  {
    hide HasId, AfterStore;
  }

  lemma RetryAccounts(c: Config, st: State, w: nat, x: Item)
    requires w < |st.workers| && st.workers[w].Trying? && Accounted(c, st, x)
    ensures Accounted(c, Retrying(st, w), x)
  {
    hide Tally;
    PhaseMoves(st.workers, w, Trying(st.workers[w].item, st.workers[w].failures + 1), x);
  }

  lemma StoredAccounts(c: Config, st: State, w: nat, x: Item)
    requires w < |st.workers| && st.workers[w].Trying? && Accounted(c, st, x)
    ensures Accounted(c, Storing(c, st, w), x)
  {
    hide Tally;
    PhaseMoves(st.workers, w, AfterStore(c, st.workers[w].item), x);
    TallyLast(Is(x), st.stored, st.workers[w].item);
  }

  lemma UnreportedAccounts(c: Config, st: State, item: Item, x: Item)
    requires Accounted(c, st, x)
    ensures Accounted(c, Unreporting(st, item), x)
  {
    hide Tally;
    TallyLast(Is(x), st.stored, item);
    TallyLast(Is(x), st.unreported, item);
  }

  lemma AttemptAccounts(c: Config, st: State, w: nat, outcome: Outcome, x: Item)
    requires Enabled(c, st, Attempt(w, outcome)) && Accounted(c, st, x)
    ensures Accounted(c, Apply(c, st, Attempt(w, outcome)), x)
  {
    AttemptIs(c, st, w, outcome);
    hide Accounted, Retrying, Storing, Refused, Apply;
    var item := st.workers[w].item;
    if Refused(st, item, outcome) {
      RetryAccounts(c, st, w, x);
    } else if outcome == Works {
      StoredAccounts(c, st, w, x);
    } else {
      UnreportedAccounts(c, st, item, x);
      RetryAccounts(c, Unreporting(st, item), w, x);
    }
  }

  /** Steps that leave the store alone. */
  lemma ApplyConserves(c: Config, st: State, step: Step, x: Item)
    requires Enabled(c, st, step) && Accounted(c, st, x) && Justified(c, st) && !step.Attempt?
    ensures Accounted(c, Apply(c, st, step), x)
  {
    hide Tally;
    match step
    case Enqueue(item) => TallyLast(Is(x), st.queue, item); TallyLast(Is(x), st.enqueued, item);
    case Launch => TallyLast(Holds(x), st.workers, Idle); TallyLast(Passes(x), st.workers, Idle);
    case Dequeue(w) =>
      TallyUpdate(Holds(x), st.workers, w, Holding(st.queue[0]));
      TallyUpdate(Passes(x), st.workers, w, Holding(st.queue[0]));
      TallyHead(Is(x), st.queue);
    case Decode(w) =>
      var item := st.workers[w].item;
      var p := if item.decodable then Trying(item, 0) else Idle;
      TallyUpdate(Holds(x), st.workers, w, p);
      TallyUpdate(Passes(x), st.workers, w, p);
      TallyLast(Drops(x), st.dropped, Undecodable(item));
    case GiveUp(w) =>
      TallyUpdate(Holds(x), st.workers, w, Idle);
      TallyUpdate(Passes(x), st.workers, w, Idle);
      TallyLast(Drops(x), st.dropped, Exhausted(st.workers[w].item, st.workers[w].failures));
    case Detect(w) =>
      TallyUpdate(Holds(x), st.workers, w, Idle);
      TallyUpdate(Passes(x), st.workers, w, Idle);
      TallyLast(Is(x), st.seen, st.workers[w].item);
    case Exit(w) =>
      TallyUpdate(Holds(x), st.workers, w, Exited);
      TallyUpdate(Passes(x), st.workers, w, Exited);
    case MonitorExit =>
    case Return =>
  }

  lemma ApplyJustifies(c: Config, st: State, step: Step)
    requires Enabled(c, st, step) && Justified(c, st)
    ensures Justified(c, Apply(c, st, step))
  {
  }

  lemma ApplyFifo(c: Config, st: State, step: Step)
    requires Enabled(c, st, step) && Fifo(st)
    ensures Fifo(Apply(c, st, step))
  {
    hide IsSuffix;
    if step.Enqueue? {
      SuffixLast(st.queue, st.enqueued, step.item);
    } else if step.Dequeue? {
      SuffixTail(st.queue, st.enqueued);
    }
  }

  /** Any sequence of steps; one that is not enabled does not happen. */
  function Run(c: Config, steps: seq<Step>): State {
    if |steps| == 0 then START
    else
      var st := Run(c, steps[..|steps| - 1]);
      if Enabled(c, st, steps[|steps| - 1]) then Apply(c, st, steps[|steps| - 1]) else st
  }

  /** Drops are justified and the queue is first in, first out, in every
      interleaving. */
  lemma {:induction false} RunKeepsOrder(c: Config, steps: seq<Step>)
    ensures Justified(c, Run(c, steps)) && Fifo(Run(c, steps))
  {
    if |steps| > 0 {
      hide Justified, Fifo, Apply, Enabled;
      var st := Run(c, steps[..|steps| - 1]);
      RunKeepsOrder(c, steps[..|steps| - 1]);
      if Enabled(c, st, steps[|steps| - 1]) {
        ApplyJustifies(c, st, steps[|steps| - 1]);
        ApplyFifo(c, st, steps[|steps| - 1]);
      }
    }
  }

  /** The account holds in every interleaving of writers, workers, retries,
      scaling and shutdown. */
  lemma {:induction false} RunAccounts(c: Config, steps: seq<Step>, x: Item)
    ensures Accounted(c, Run(c, steps), x)
  {
    if |steps| > 0 {
      hide Justified, Accounted, Fifo, Apply, Enabled;
      var st, step := Run(c, steps[..|steps| - 1]), steps[|steps| - 1];
      RunAccounts(c, steps[..|steps| - 1], x);
      RunKeepsOrder(c, steps[..|steps| - 1]);
      if Enabled(c, st, step) {
        if step.Attempt? { AttemptAccounts(c, st, step.w, step.outcome, x); } else { ApplyConserves(c, st, step, x); }
      }
    }
  }

  /** The step stores x but reports an error. */
  predicate StoresUnreported(c: Config, st: State, step: Step, x: Item) {
    Enabled(c, st, step) && step.Attempt? && step.outcome == CommitsThenBreaks &&
    st.workers[step.w].item == x && !HasId(st.stored, x.id)
  }

  /** Step n of the run stores x but reports an error. */
  predicate UnreportedAt(c: Config, steps: seq<Step>, n: nat, x: Item)
    requires n < |steps|
  {
    StoresUnreported(c, Run(c, steps[..n]), steps[n], x)
  }

  ghost predicate SomeUnreported(c: Config, steps: seq<Step>, x: Item) {
    exists n :: 0 <= n < |steps| && UnreportedAt(c, steps, n, x)
  }

  lemma UnreportedAtFront(c: Config, steps: seq<Step>, n: nat, x: Item)
    requires n < |steps| - 1
    ensures UnreportedAt(c, steps[..|steps| - 1], n, x) <==> UnreportedAt(c, steps, n, x)
  {
    var front := steps[..|steps| - 1];
    assert front[..n] == steps[..n] && front[n] == steps[n];
    hide Run, StoresUnreported;
  }

  lemma SomeUnreportedStep(c: Config, steps: seq<Step>, x: Item)
    requires |steps| > 0
    ensures var (n, front) := (|steps| - 1, steps[..|steps| - 1]);
            SomeUnreported(c, steps, x) <==> SomeUnreported(c, front, x) || UnreportedAt(c, steps, n, x)
  {
    var (m, front) := (|steps| - 1, steps[..|steps| - 1]);
    hide UnreportedAt;
    if SomeUnreported(c, steps, x) {
      var n :| 0 <= n < |steps| && UnreportedAt(c, steps, n, x);
      if n < m { UnreportedAtFront(c, steps, n, x); }
    }
    if SomeUnreported(c, front, x) {
      var n :| 0 <= n < m && UnreportedAt(c, front, n, x);
      UnreportedAtFront(c, steps, n, x);
    }
  }

  lemma UnreportedTally(c: Config, st: State, step: Step, x: Item)
    requires Enabled(c, st, step)
    ensures Tally(Is(x), Apply(c, st, step).unreported) ==
            Tally(Is(x), st.unreported) + if StoresUnreported(c, st, step, x) then 1 else 0
  {
    hide Tally, HasId;
    if step.Attempt? { TallyLast(Is(x), st.unreported, st.workers[step.w].item); }
  }

  lemma {:induction false} UnreportedIff(c: Config, steps: seq<Step>, x: Item)
    ensures Tally(Is(x), Run(c, steps).unreported) > 0 <==> SomeUnreported(c, steps, x)
  {
    if |steps| > 0 {
      var front := steps[..|steps| - 1];
      UnreportedIff(c, front, x);
      SomeUnreportedStep(c, steps, x);
      assert UnreportedAt(c, steps, |front|, x) == StoresUnreported(c, Run(c, front), steps[|front|], x);
      if Enabled(c, Run(c, front), steps[|steps| - 1]) { UnreportedTally(c, Run(c, front), steps[|steps| - 1], x); }
      hide Apply, Enabled, SomeUnreported, Tally;
    }
  }

  /** Every interleaving loses and duplicates nothing exactly when no store call
      commits and reports an error; and, of the items meant for the detector, it
      is shown each stored one once exactly then. */
  lemma RunConservesIff(c: Config, steps: seq<Step>, x: Item)
    ensures Conserved(Run(c, steps), x) <==> !SomeUnreported(c, steps, x)
    ensures Detected(c, Run(c, steps), x) <==> !(ForDetector(c, x) && SomeUnreported(c, steps, x))
  {
    RunAccounts(c, steps, x);
    UnreportedIff(c, steps, x);
    hide Run, Tally, SomeUnreported;
  }

  /** When Start has returned nothing is in a hand: every item is queued, stored
      or dropped, and the detector has seen every stored non-alert exactly once,
      but for the items stored without report. */
  lemma NothingInHandAfterReturn(c: Config, steps: seq<Step>, x: Item)
    requires Run(c, steps).returned
    ensures var st := Run(c, steps);
            Tally(Is(x), st.enqueued) + Tally(Is(x), st.unreported) ==
            Tally(Is(x), st.queue) + Tally(Is(x), st.stored) + Tally(Drops(x), st.dropped) &&
            Tally(Is(x), st.seen) ==
            if ForDetector(c, x) then Tally(Is(x), st.stored) - Tally(Is(x), st.unreported) else 0
  {
    var st := Run(c, steps);
    RunAccounts(c, steps, x);
    RunKeepsOrder(c, steps);
    hide Run, Tally;
    TallyZero(Holds(x), st.workers);
    TallyZero(Passes(x), st.workers);
  }

  // ----- what becomes of an item stored without report

  /** The store holds an item once, and an unreported one is still in a hand or
      given up. */
  ghost predicate GivenUpOrHeld(st: State, x: Item) {
    && Tally(Is(x), st.unreported) <= Tally(Is(x), st.stored) <= 1
    && (Tally(Is(x), st.stored) > 0 ==> HasId(st.stored, x.id))
    && (Tally(Is(x), st.unreported) > 0 ==> Tally(Holds(x), st.workers) + Tally(Drops(x), st.dropped) > 0)
  }

  lemma IdStored(stored: seq<Item>, item: Item, id: nat)
    ensures HasId(stored + [item], id) <==> HasId(stored, id) || item.id == id
  {
    var all := stored + [item];
    assert all[|stored|] == item;
    if i :| 0 <= i < |stored| && stored[i].id == id { assert all[i].id == id; }
  }

  lemma HeldRetry(st: State, w: nat, x: Item)
    requires w < |st.workers| && st.workers[w].Trying? && GivenUpOrHeld(st, x)
    ensures GivenUpOrHeld(Retrying(st, w), x)
  {
    hide Tally, HasId;
    PhaseMoves(st.workers, w, Trying(st.workers[w].item, st.workers[w].failures + 1), x);
  }

  lemma HeldStored(c: Config, st: State, w: nat, x: Item)
    requires w < |st.workers| && st.workers[w].Trying? && GivenUpOrHeld(st, x) && !HasId(st.stored, st.workers[w].item.id)
    ensures GivenUpOrHeld(Storing(c, st, w), x)
  {
    hide Tally, HasId;
    var item := st.workers[w].item;
    PhaseMoves(st.workers, w, AfterStore(c, item), x);
    TallyLast(Is(x), st.stored, item);
    IdStored(st.stored, item, x.id);
  }

  lemma HeldUnreported(st: State, w: nat, x: Item)
    requires w < |st.workers| && st.workers[w].Trying? && GivenUpOrHeld(st, x) && !HasId(st.stored, st.workers[w].item.id)
    ensures GivenUpOrHeld(Unreporting(st, st.workers[w].item), x)
  {
    hide Tally, HasId;
    var item := st.workers[w].item;
    HandCounts(Holds(x), st.workers, w);
    TallyLast(Is(x), st.stored, item);
    TallyLast(Is(x), st.unreported, item);
    IdStored(st.stored, item, x.id);
  }

  lemma HeldAttempt(c: Config, st: State, w: nat, outcome: Outcome, x: Item)
    requires Enabled(c, st, Attempt(w, outcome)) && GivenUpOrHeld(st, x)
    ensures GivenUpOrHeld(Apply(c, st, Attempt(w, outcome)), x)
  {
    AttemptIs(c, st, w, outcome);
    hide GivenUpOrHeld, Retrying, Storing, HasId, Apply;
    var item := st.workers[w].item;
    if Refused(st, item, outcome) {
      HeldRetry(st, w, x);
    } else if outcome == Works {
      HeldStored(c, st, w, x);
    } else {
      HeldUnreported(st, w, x);
      HeldRetry(Unreporting(st, item), w, x);
    }
  }

  lemma {:induction false} HandCounts(f: Phase -> nat, s: seq<Phase>, w: nat)
    requires w < |s|
    ensures Tally(f, s) >= f(s[w])
  {
    if w < |s| - 1 { HandCounts(f, s[..|s| - 1], w); }
  }

  lemma HeldOther(c: Config, st: State, step: Step, x: Item)
    requires Enabled(c, st, step) && GivenUpOrHeld(st, x) && !step.Attempt?
    ensures GivenUpOrHeld(Apply(c, st, step), x)
  {
    hide Tally, HasId;
    match step
    case Enqueue(_) =>
    case Launch => TallyLast(Holds(x), st.workers, Idle);
    case Dequeue(w) => TallyUpdate(Holds(x), st.workers, w, Holding(st.queue[0]));
    case Decode(w) =>
      var item := st.workers[w].item;
      TallyUpdate(Holds(x), st.workers, w, if item.decodable then Trying(item, 0) else Idle);
      TallyLast(Drops(x), st.dropped, Undecodable(item));
    case GiveUp(w) =>
      TallyUpdate(Holds(x), st.workers, w, Idle);
      TallyLast(Drops(x), st.dropped, Exhausted(st.workers[w].item, st.workers[w].failures));
    case Detect(w) => TallyUpdate(Holds(x), st.workers, w, Idle);
    case Exit(w) => TallyUpdate(Holds(x), st.workers, w, Exited);
    case MonitorExit =>
    case Return =>
  }

  lemma {:induction false} RunHeld(c: Config, steps: seq<Step>, x: Item)
    ensures GivenUpOrHeld(Run(c, steps), x)
  {
    if |steps| > 0 {
      hide GivenUpOrHeld, Apply, Enabled;
      var st, step := Run(c, steps[..|steps| - 1]), steps[|steps| - 1];
      RunHeld(c, steps[..|steps| - 1], x);
      if Enabled(c, st, step) {
        if step.Attempt? { HeldAttempt(c, st, step.w, step.outcome, x); } else { HeldOther(c, st, step, x); }
      }
    }
  }

  /** An item whose INSERT committed and reported an error ends up stored and
      given up as well: every retry meets its own row, and the detector never
      sees it. */
  lemma UnreportedIsGivenUp(c: Config, steps: seq<Step>, x: Item)
    requires Run(c, steps).returned && SomeUnreported(c, steps, x)
    ensures var st := Run(c, steps);
            Tally(Is(x), st.stored) == 1 && Tally(Drops(x), st.dropped) >= 1 && Tally(Is(x), st.seen) == 0
  {
    var st := Run(c, steps);
    NothingInHandAfterReturn(c, steps, x);
    RunHeld(c, steps, x);
    RunKeepsOrder(c, steps);
    UnreportedIff(c, steps, x);
    hide Run, Tally, SomeUnreported, HasId;
    TallyZero(Holds(x), st.workers);
  }

  // ----- what is stored, and how an item passes

  ghost predicate DistinctIds(stored: seq<Item>) {
    forall i, j :: 0 <= i < j < |stored| ==> stored[i].id != stored[j].id
  }

  lemma StepKeepsIds(c: Config, st: State, step: Step)
    requires Enabled(c, st, step) && DistinctIds(st.stored)
    ensures DistinctIds(Apply(c, st, step).stored)
  {
    if step.Attempt? {
      AttemptIs(c, st, step.w, step.outcome);
      hide Apply;
    }
  }

  /** No id is stored twice. */
  lemma {:induction false} StoredOnce(c: Config, steps: seq<Step>)
    ensures DistinctIds(Run(c, steps).stored)
  {
    if |steps| > 0 {
      hide DistinctIds, Apply, Enabled;
      var st, step := Run(c, steps[..|steps| - 1]), steps[|steps| - 1];
      StoredOnce(c, steps[..|steps| - 1]);
      if Enabled(c, st, step) { StepKeepsIds(c, st, step); }
    }
  }

  /** The next item, taken by an idle worker: undecodable it is dropped; otherwise,
      if its id is new and the store call works, it is stored and, unless it is an
      alert or there is no detector, seen. */
  lemma ItemPasses(c: Config, st: State, w: nat)
    requires w < |st.workers| && st.workers[w].Idle? && |st.queue| > 0 && c.maxRetries > 0
    ensures var item := st.queue[0];
            && Enabled(c, st, Dequeue(w))
            && var taken := Apply(c, st, Dequeue(w));
            && taken.queue == st.queue[1..] && Enabled(c, taken, Decode(w))
            && var decoded := Apply(c, taken, Decode(w));
            && (!item.decodable ==>
                  decoded.dropped == st.dropped + [Undecodable(item)] && decoded.workers == st.workers && decoded.stored == st.stored)
            && (item.decodable && (forall i :: 0 <= i < |st.stored| ==> st.stored[i].id != item.id) ==>
                  && Enabled(c, decoded, Attempt(w, Works))
                  && var kept := Apply(c, decoded, Attempt(w, Works));
                  && kept.stored == st.stored + [item] && kept.dropped == st.dropped && kept.unreported == st.unreported
                  && (if c.hasDetector && !item.alert then
                        Enabled(c, kept, Detect(w)) && Apply(c, kept, Detect(w)).seen == st.seen + [item] &&
                        Apply(c, kept, Detect(w)).workers == st.workers
                      else kept.workers == st.workers && kept.seen == st.seen))
  {
    assert st.workers[w := Idle] == st.workers;
  }

  // ----- one worker's part

  /** The attempts so far stored nothing. */
  ghost predicate AllBreak(outcome: nat -> Outcome, n: nat) {
    forall i: nat :: i < n ==> outcome(i) == Breaks
  }

  /** The first of n attempts that reaches the table ends like this. */
  ghost predicate FirstStore(outcome: nat -> Outcome, n: nat, how: Outcome) {
    exists i: nat :: i < n && outcome(i) == how && AllBreak(outcome, i)
  }

  lemma FirstStoreUnique(outcome: nat -> Outcome, n: nat)
    ensures !(FirstStore(outcome, n, Works) && FirstStore(outcome, n, CommitsThenBreaks))
    ensures AllBreak(outcome, n) ==> !FirstStore(outcome, n, Works) && !FirstStore(outcome, n, CommitsThenBreaks)
  {
  }

  function Maybe(b: bool, item: Item): seq<Item> { if b then [item] else [] }

  /** Where a worker stands after `k` failures, one of them possibly unreported. */
  function Tried(start: State, w: nat, item: Item, k: nat, unreported: bool): State
    requires w < |start.workers|
  {
    start.(workers := start.workers[w := Trying(item, k)],
           stored := start.stored + Maybe(unreported, item), unreported := start.unreported + Maybe(unreported, item))
  }

  lemma OneAttempt(c: Config, start: State, w: nat, item: Item, k: nat, unreported: bool, outcome: Outcome)
    requires w < |start.workers| && k < c.maxRetries
    ensures var st := Tried(start, w, item, k, unreported);
            var st' := Apply(c, st, Attempt(w, outcome));
            && (HasId(st.stored, item.id) <==> HasId(start.stored, item.id) || unreported)
            && (if outcome == Breaks || HasId(st.stored, item.id) then st' == Tried(start, w, item, k + 1, unreported)
                else if outcome == Works
                then st' == start.(workers := start.workers[w := AfterStore(c, item)], stored := start.stored + [item])
                else st' == Tried(start, w, item, k + 1, true))
  {
    var st := Tried(start, w, item, k, unreported);
    IdStored(start.stored, item, item.id);
    assert start.stored + [] == start.stored && start.unreported + [] == start.unreported;
    AttemptIs(c, st, w, outcome);
    hide Apply, HasId, AfterStore;
  }

  /** processWithRetry as one worker's uninterrupted part of a run: `outcome(i)`
      is what the store call of attempt i does.  It succeeds exactly when the
      first call that stores the event also reports it. */
  method ProcessWithRetry(c: Config, start: State, w: nat, outcome: nat -> Outcome) returns (st: State, ok: bool)
    requires w < |start.workers| && start.workers[w].Trying? && start.workers[w].failures == 0
    ensures ok <==> !HasId(start.stored, start.workers[w].item.id) && FirstStore(outcome, c.maxRetries, Works)
    ensures var item := start.workers[w].item;
            var unreported := !HasId(start.stored, item.id) && FirstStore(outcome, c.maxRetries, CommitsThenBreaks);
            st == if ok then start.(workers := start.workers[w := AfterStore(c, item)], stored := start.stored + [item])
                  else
                    start.(workers := start.workers[w := Idle], dropped := start.dropped + [Exhausted(item, c.maxRetries)],
                           stored := start.stored + Maybe(unreported, item),
                           unreported := start.unreported + Maybe(unreported, item))
  {
    st := start;
    var attempt := 0;
    ghost var item, taken := start.workers[w].item, HasId(start.stored, start.workers[w].item.id);
    ghost var unreported := false;
    assert start.stored + [] == start.stored && start.unreported + [] == start.unreported;
    FirstStoreUnique(outcome, c.maxRetries);
    hide HasId, AfterStore;
    while attempt < c.maxRetries
      invariant attempt <= c.maxRetries
      invariant unreported ==> !taken && FirstStore(outcome, c.maxRetries, CommitsThenBreaks)
      invariant !taken && !unreported ==> AllBreak(outcome, attempt)
      invariant st == Tried(start, w, item, attempt, unreported)
    {
      OneAttempt(c, start, w, item, attempt, unreported, outcome(attempt));
      var stores := outcome(attempt) == Works && !HasId(st.stored, st.workers[w].item.id);
      unreported := unreported || (!taken && outcome(attempt) == CommitsThenBreaks);
      st := Apply(c, st, Attempt(w, outcome(attempt)));
      if stores {
        return st, true;
      }
      attempt := attempt + 1;
    }
    st := Apply(c, st, GiveUp(w));
    assert st.workers == start.workers[w := Idle];
    ok := false;
  }
}
