/** Get-or-create of a project by service name, called concurrently. */
module EnsureProject {
  import opened Options

  datatype Project = Project(id: nat, slug: string)

  /** Where one call stands: before its first lookup, before its INSERT, after an
      INSERT that reported an error, after one that succeeded, or done. */
  datatype Phase =
    | Looking
    | Creating(newId: nat)
    | Recovering
    | Created(newId: nat)
    | Succeeded(id: nat)
    | Failed

  datatype Call = Call(slug: string, phase: Phase)

  /** `notified` lists the ids OnProjectCreated was started for. */
  datatype State = State(projects: seq<Project>, calls: seq<Call>, notified: seq<nat>, nextId: nat)

  /** What a database call reports; an INSERT may commit and still report an error. */
  datatype Outcome = Works | Breaks | CommitsThenBreaks

  datatype Step =
    | Begin(slug: string)
    | Lookup(call: nat, outcome: Outcome)
    | Insert(call: nat, outcome: Outcome)
    | LookupAgain(call: nat, outcome: Outcome)
    | Notify(call: nat)
    | CreateElsewhere(slug: string)

  const START := State([], [], [], 0)

  function Find(projects: seq<Project>, slug: string): Option<nat> {
    if |projects| == 0 then None
    else if projects[0].slug == slug then Some(projects[0].id)
    else Find(projects[1..], slug)
  }

  function SetPhase(st: State, c: nat, phase: Phase): State
    requires c < |st.calls|
  {
    st.(calls := st.calls[c := st.calls[c].(phase := phase)])
  }

  predicate Enabled(st: State, step: Step) {
    match step
    case Begin(_) => true
    case Lookup(c, _) => c < |st.calls| && st.calls[c].phase.Looking?
    case Insert(c, _) => c < |st.calls| && st.calls[c].phase.Creating?
    case LookupAgain(c, _) => c < |st.calls| && st.calls[c].phase.Recovering?
    case Notify(c) => c < |st.calls| && st.calls[c].phase.Created?
    case CreateElsewhere(_) => true
  }

  /** Each case is one repository call; the slug's unique index refuses a second
      project with the same slug.  Projects may also be created by hand. */
  function Apply(st: State, step: Step): State
    requires Enabled(st, step)
  {
    match step
    case Begin(slug) => st.(calls := st.calls + [Call(slug, Looking)])
    case Lookup(c, outcome) =>
      var found := Find(st.projects, st.calls[c].slug);
      if outcome != Works then SetPhase(st, c, Failed)
      else if found.Some? then SetPhase(st, c, Succeeded(found.value))
      else SetPhase(st, c, Creating(st.nextId)).(nextId := st.nextId + 1)
    case Insert(c, outcome) =>
      var (slug, id) := (st.calls[c].slug, st.calls[c].phase.newId);
      if outcome == Breaks || Find(st.projects, slug).Some? then SetPhase(st, c, Recovering)
      else
        SetPhase(st, c, if outcome == Works then Created(id) else Recovering)
          .(projects := st.projects + [Project(id, slug)])
    case LookupAgain(c, outcome) =>
      var found := Find(st.projects, st.calls[c].slug);
      SetPhase(st, c, if outcome == Works && found.Some? then Succeeded(found.value) else Failed)
    case Notify(c) =>
      var id := st.calls[c].phase.newId;
      SetPhase(st, c, Succeeded(id)).(notified := st.notified + [id])
    case CreateElsewhere(slug) =>
      if Find(st.projects, slug).Some? then st
      else st.(projects := st.projects + [Project(st.nextId, slug)], nextId := st.nextId + 1)
  }

  /** Any interleaving; a step that is not enabled does not happen. */
  function RunFrom(start: State, steps: seq<Step>): State {
    if |steps| == 0 then start else Do(RunFrom(start, steps[..|steps| - 1]), steps[|steps| - 1])
  }

  function Do(st: State, step: Step): State {
    if Enabled(st, step) then Apply(st, step) else st
  }

  function Run(steps: seq<Step>): State { RunFrom(START, steps) }

  // ----- invariant

  ghost predicate UniqueSlugs(projects: seq<Project>) {
    forall i, j :: 0 <= i < j < |projects| ==> projects[i].slug != projects[j].slug
  }

  ghost predicate Stored(projects: seq<Project>, id: nat, slug: string) {
    exists i :: 0 <= i < |projects| && projects[i] == Project(id, slug)
  }

  ghost predicate CallOk(st: State, call: Call) {
    match call.phase
    case Succeeded(id) => Stored(st.projects, id, call.slug)
    case Created(id) => Stored(st.projects, id, call.slug) && id !in st.notified && id < st.nextId
    case Creating(id) => id < st.nextId && id !in st.notified && forall i :: 0 <= i < |st.projects| ==> st.projects[i].id != id
    case _ => true
  }

  /** Ids being created are private to their call. */
  ghost predicate OwnIds(calls: seq<Call>) {
    forall i, j :: 0 <= i < j < |calls| && (calls[i].phase.Creating? || calls[i].phase.Created?) &&
                   (calls[j].phase.Creating? || calls[j].phase.Created?) ==>
                     calls[i].phase.newId != calls[j].phase.newId
  }

  ghost predicate NotifiedOk(st: State) {
    && (forall i, j :: 0 <= i < j < |st.notified| ==> st.notified[i] != st.notified[j])
    && (forall i :: 0 <= i < |st.notified| ==>
          st.notified[i] < st.nextId && exists k :: 0 <= k < |st.projects| && st.projects[k].id == st.notified[i])
  }

  ghost predicate IdsBelow(st: State) {
    forall i :: 0 <= i < |st.projects| ==> st.projects[i].id < st.nextId
  }

  ghost predicate UniqueIds(projects: seq<Project>) {
    forall i, j :: 0 <= i < j < |projects| ==> projects[i].id != projects[j].id
  }

  ghost predicate Inv(st: State) {
    && UniqueSlugs(st.projects) && UniqueIds(st.projects) && IdsBelow(st)
    && (forall c :: 0 <= c < |st.calls| ==> CallOk(st, st.calls[c]))
    && OwnIds(st.calls) && NotifiedOk(st)
  }

  lemma {:induction false} FindStored(projects: seq<Project>, slug: string)
    ensures Find(projects, slug).Some? ==> Stored(projects, Find(projects, slug).value, slug)
    ensures Find(projects, slug).None? <==> forall i :: 0 <= i < |projects| ==> projects[i].slug != slug
  {
    if |projects| > 0 && projects[0].slug != slug {
      FindStored(projects[1..], slug);
      if Find(projects, slug).Some? {
        var i :| 0 <= i < |projects[1..]| && projects[1..][i] == Project(Find(projects, slug).value, slug);
        assert projects[i + 1] == Project(Find(projects, slug).value, slug);
      } else {
        forall i | 0 <= i < |projects| ensures projects[i].slug != slug {
          if i > 0 { assert projects[i] == projects[1..][i - 1]; }
        }
      }
    }
  }

  lemma StoredGrows(projects: seq<Project>, p: Project)
    ensures forall id: nat, slug :: Stored(projects, id, slug) ==> Stored(projects + [p], id, slug)
    ensures Stored(projects + [p], p.id, p.slug)
  {
    forall id: nat, slug | Stored(projects, id, slug) ensures Stored(projects + [p], id, slug) {
      var i :| 0 <= i < |projects| && projects[i] == Project(id, slug);
      assert (projects + [p])[i] == Project(id, slug);
    }
    assert (projects + [p])[|projects|] == p;
  }

  lemma RefusedInsertKeepsInv(st: State, c: nat)
    requires Inv(st) && c < |st.calls|
    ensures Inv(SetPhase(st, c, Recovering))
  {
    var st' := SetPhase(st, c, Recovering);
    forall i | 0 <= i < |st.calls| ensures CallOk(st', st'.calls[i]) {
      assert CallOk(st, st.calls[i]);
    }
  }

  lemma StoredInsertKeepsInv(st: State, c: nat, phase: Phase)
    requires Inv(st) && c < |st.calls| && st.calls[c].phase.Creating? && Find(st.projects, st.calls[c].slug).None?
    requires phase == Created(st.calls[c].phase.newId) || phase == Recovering
    ensures Inv(SetPhase(st, c, phase).(projects := st.projects + [Project(st.calls[c].phase.newId, st.calls[c].slug)]))
  {
    var (slug, id) := (st.calls[c].slug, st.calls[c].phase.newId);
    var st' := SetPhase(st, c, phase).(projects := st.projects + [Project(id, slug)]);
    FindStored(st.projects, slug);
    StoredGrows(st.projects, Project(id, slug));
    assert CallOk(st, st.calls[c]);
    StoredCallsOk(st, st', c, phase);
    forall i | 0 <= i < |st'.notified| ensures exists k :: 0 <= k < |st'.projects| && st'.projects[k].id == st'.notified[i] {
      var k :| 0 <= k < |st.projects| && st.projects[k].id == st.notified[i];
      assert st'.projects[k] == st.projects[k];
    }
  }

  lemma StoredCallsOk(st: State, st': State, c: nat, phase: Phase)
    requires Inv(st) && c < |st.calls| && st.calls[c].phase.Creating?
    requires phase == Created(st.calls[c].phase.newId) || phase == Recovering
    requires st' == SetPhase(st, c, phase).(projects := st.projects + [Project(st.calls[c].phase.newId, st.calls[c].slug)])
    ensures forall i :: 0 <= i < |st'.calls| ==> CallOk(st', st'.calls[i])
  {
    StoredGrows(st.projects, Project(st.calls[c].phase.newId, st.calls[c].slug));
    hide Stored;
    assert CallOk(st, st.calls[c]);
    forall i | 0 <= i < |st.calls| ensures CallOk(st', st'.calls[i]) {
      assert CallOk(st, st.calls[i]);
    }
  }

  lemma InsertKeepsInv(st: State, c: nat, outcome: Outcome)
    requires Inv(st) && Enabled(st, Insert(c, outcome))
    ensures Inv(Apply(st, Insert(c, outcome)))
  {
    hide Inv;
    if outcome == Breaks || Find(st.projects, st.calls[c].slug).Some? {
      RefusedInsertKeepsInv(st, c);
    } else {
      StoredInsertKeepsInv(st, c, if outcome == Works then Created(st.calls[c].phase.newId) else Recovering);
    }
  }

  lemma NotifyKeepsInv(st: State, c: nat)
    requires Inv(st) && Enabled(st, Notify(c))
    ensures Inv(Apply(st, Notify(c)))
  {
    var id := st.calls[c].phase.newId;
    var st' := Apply(st, Notify(c));
    assert CallOk(st, st.calls[c]);
    forall i | 0 <= i < |st.calls| ensures CallOk(st', st'.calls[i]) {
      assert CallOk(st, st.calls[i]);
    }
    forall i | 0 <= i < |st'.notified|
      ensures st'.notified[i] < st'.nextId && exists k :: 0 <= k < |st'.projects| && st'.projects[k].id == st'.notified[i]
    {
      if i < |st.notified| { assert st'.notified[i] == st.notified[i]; }
    }
  }

  /** A phase a call may take: over, with an id stored under its slug, or creating
      with the next id. */
  ghost predicate PhaseFits(st: State, c: nat, phase: Phase)
    requires c < |st.calls|
  {
    phase == Failed || phase == Creating(st.nextId) ||
    (phase.Succeeded? && Stored(st.projects, phase.id, st.calls[c].slug))
  }

  function Taking(st: State, c: nat, phase: Phase): State
    requires c < |st.calls|
  {
    SetPhase(st, c, phase).(nextId := if phase.Creating? then st.nextId + 1 else st.nextId)
  }

  lemma TakingKeepsCalls(st: State, c: nat, phase: Phase)
    requires c < |st.calls| && Inv(st) && PhaseFits(st, c, phase)
    ensures var st' := Taking(st, c, phase); forall i :: 0 <= i < |st'.calls| ==> CallOk(st', st'.calls[i])
  {
    var st' := Taking(st, c, phase);
    forall i | 0 <= i < |st.calls| ensures CallOk(st', st'.calls[i]) {
      assert CallOk(st, st.calls[i]);
      hide UniqueSlugs, UniqueIds, OwnIds;
    }
  }

  lemma TakingKeepsOwnIds(st: State, c: nat, phase: Phase)
    requires c < |st.calls| && Inv(st) && PhaseFits(st, c, phase)
    ensures OwnIds(Taking(st, c, phase).calls)
  {
    forall i | 0 <= i < |st.calls| && (st.calls[i].phase.Creating? || st.calls[i].phase.Created?)
      ensures st.calls[i].phase.newId < st.nextId
    {
      assert CallOk(st, st.calls[i]);
      hide OwnIds, NotifiedOk, Stored;
    }
    hide CallOk, NotifiedOk, UniqueSlugs, UniqueIds, IdsBelow, Stored;
  }

  lemma TakingKeepsInv(st: State, c: nat, phase: Phase)
    requires c < |st.calls| && Inv(st) && PhaseFits(st, c, phase)
    ensures Inv(Taking(st, c, phase))
  {
    TakingKeepsCalls(st, c, phase);
    TakingKeepsOwnIds(st, c, phase);
    hide CallOk, OwnIds, PhaseFits;
  }

  lemma LookupKeepsInv(st: State, step: Step)
    requires Inv(st) && Enabled(st, step) && (step.Lookup? || step.LookupAgain?)
    ensures Inv(Apply(st, step))
  {
    var c := step.call;
    var found := Find(st.projects, st.calls[c].slug);
    FindStored(st.projects, st.calls[c].slug);
    var phase := if step.outcome == Works && found.Some? then Succeeded(found.value)
                 else if step.outcome == Works && step.Lookup? then Creating(st.nextId) else Failed;
    assert PhaseFits(st, c, phase);
    assert Apply(st, step) == Taking(st, c, phase);
    hide *;
    TakingKeepsInv(st, c, phase);
  }

  lemma BeginKeepsInv(st: State, slug: string)
    requires Inv(st)
    ensures Inv(Apply(st, Begin(slug)))
  {
    var st' := Apply(st, Begin(slug));
    forall i | 0 <= i < |st'.calls| ensures CallOk(st', st'.calls[i]) {
      if i < |st.calls| { assert CallOk(st, st.calls[i]); }
    }
  }

  lemma ElsewhereCallOk(st: State, st': State, p: Project, call: Call)
    requires CallOk(st, call) && p.id == st.nextId
    requires st'.projects == st.projects + [p] && st'.notified == st.notified && st'.nextId == st.nextId + 1
    ensures CallOk(st', call)
  {
    StoredGrows(st.projects, p);
    hide Stored;
  }

  lemma ElsewhereKeepsInv(st: State, slug: string)
    requires Inv(st)
    ensures Inv(Apply(st, CreateElsewhere(slug)))
  {
    var st' := Apply(st, CreateElsewhere(slug));
    FindStored(st.projects, slug);
    if Find(st.projects, slug).None? {
      hide CallOk, Stored, Find;
      forall i | 0 <= i < |st.calls| ensures CallOk(st', st.calls[i]) {
        ElsewhereCallOk(st, st', Project(st.nextId, slug), st.calls[i]);
      }
      forall i | 0 <= i < |st.notified| ensures exists k :: 0 <= k < |st'.projects| && st'.projects[k].id == st.notified[i] {
        var k :| 0 <= k < |st.projects| && st.projects[k].id == st.notified[i];
        assert st'.projects[k] == st.projects[k];
      }
    }
  }

  lemma {:induction false} RunKeepsInv(steps: seq<Step>)
    ensures Inv(Run(steps))
  {
    if |steps| > 0 {
      var st, step := Run(steps[..|steps| - 1]), steps[|steps| - 1];
      RunKeepsInv(steps[..|steps| - 1]);
      hide Inv, Apply;
      if Enabled(st, step) {
        match step
        case Begin(slug) => BeginKeepsInv(st, slug);
        case Lookup(_, _) => LookupKeepsInv(st, step);
        case Insert(c, outcome) => InsertKeepsInv(st, c, outcome);
        case LookupAgain(_, _) => LookupKeepsInv(st, step);
        case Notify(c) => NotifyKeepsInv(st, c);
        case CreateElsewhere(slug) => ElsewhereKeepsInv(st, slug);
      }
    }
  }

  /** However calls interleave and whatever fails, all successful calls for one
      service name return the same project. */
  lemma SuccessfulCallsAgree(steps: seq<Step>, a: nat, b: nat)
    requires a < |Run(steps).calls| && b < |Run(steps).calls|
    requires Run(steps).calls[a].slug == Run(steps).calls[b].slug
    requires Run(steps).calls[a].phase.Succeeded? && Run(steps).calls[b].phase.Succeeded?
    ensures Run(steps).calls[a].phase.id == Run(steps).calls[b].phase.id
  {
    RunKeepsInv(steps);
    var st := Run(steps);
    hide Run;
    assert CallOk(st, st.calls[a]) && CallOk(st, st.calls[b]);
    var slug := st.calls[a].slug;
    var i :| 0 <= i < |st.projects| && st.projects[i] == Project(st.calls[a].phase.id, slug);
    var j :| 0 <= j < |st.projects| && st.projects[j] == Project(st.calls[b].phase.id, slug);
  }

  /** There is at most one project per slug, and the callback is started at most
      once for each. */
  lemma OneProjectOneCallback(steps: seq<Step>)
    ensures UniqueSlugs(Run(steps).projects)
    ensures forall i, j :: 0 <= i < j < |Run(steps).notified| ==> Run(steps).notified[i] != Run(steps).notified[j]
    ensures var st := Run(steps);
            forall i, j, p, q | 0 <= i < j < |st.notified| && p in st.projects && q in st.projects &&
                                p.id == st.notified[i] && q.id == st.notified[j] :: p.slug != q.slug
  {
    RunKeepsInv(steps);
  }

  // ----- calls that succeed

  /** How far a call has come. */
  function Stage(phase: Phase): nat {
    match phase
    case Looking => 0
    case Creating(_) => 1
    case Recovering => 2
    case Created(_) => 3
    case Succeeded(_) => 4
    case Failed => 4
  }

  function StageOf(st: State, c: nat): nat {
    if c < |st.calls| then Stage(st.calls[c].phase) else 0
  }

  /** No step takes a call back, and its own take it on. */
  lemma StepAdvances(st: State, step: Step, c: nat)
    requires c < |st.calls|
    ensures c < |Do(st, step).calls| && StageOf(Do(st, step), c) >= StageOf(st, c)
    ensures step.Lookup? && step.call == c ==> StageOf(Do(st, step), c) >= 1
    ensures step.Insert? && step.call == c && StageOf(st, c) >= 1 ==> StageOf(Do(st, step), c) >= 2
    ensures step.LookupAgain? && step.call == c && StageOf(st, c) >= 2 ==> StageOf(Do(st, step), c) >= 3
    ensures step.Notify? && step.call == c && StageOf(st, c) >= 3 ==> StageOf(Do(st, step), c) >= 4
  {
    hide Find;
  }

  lemma {:induction false} RunAdvances(steps: seq<Step>, j: nat, k: nat, c: nat)
    requires j <= k <= |steps| && c < |Run(steps[..j]).calls|
    ensures c < |Run(steps[..k]).calls| && StageOf(Run(steps[..k]), c) >= StageOf(Run(steps[..j]), c)
  {
    if j < k {
      RunAdvances(steps, j, k - 1, c);
      RunStep(steps, k - 1);
      StepAdvances(Run(steps[..k - 1]), steps[k - 1], c);
      hide Run, StageOf, Do;
    }
  }

  lemma RunStep(steps: seq<Step>, k: nat)
    requires k < |steps|
    ensures Run(steps[..k + 1]) == Do(Run(steps[..k]), steps[k])
  {
    assert steps[..k + 1][..k] == steps[..k];
    hide Do;
  }

  /** Every database call a call of EnsureProject makes works. */
  ghost predicate OwnStepsWork(steps: seq<Step>, c: nat) {
    forall i :: 0 <= i < |steps| && (steps[i].Lookup? || steps[i].Insert? || steps[i].LookupAgain?) && steps[i].call == c ==>
      steps[i].outcome == Works
  }

  /** A call that has not failed, and that is recovering only from a taken slug. */
  ghost predicate CanSucceed(st: State, c: nat) {
    c < |st.calls| ==>
      !st.calls[c].phase.Failed? &&
      (st.calls[c].phase.Recovering? ==> exists id :: Stored(st.projects, id, st.calls[c].slug))
  }

  lemma FindSome(projects: seq<Project>, slug: string)
    ensures Find(projects, slug).Some? <==> exists id :: Stored(projects, id, slug)
  {
    FindStored(projects, slug);
    hide Find;
    if id :| Stored(projects, id, slug) {
      var i :| 0 <= i < |projects| && projects[i] == Project(id, slug);
    }
  }

  lemma StoredStays(st: State, step: Step, slug: string)
    requires exists id :: Stored(st.projects, id, slug)
    ensures exists id :: Stored(Do(st, step).projects, id, slug)
  {
    hide *;
    var id :| Stored(st.projects, id, slug);
    var added := ProjectsGrow(st, step);
    if added.Some? { StoredGrows(st.projects, added.value); }
  }

  lemma ProjectsGrow(st: State, step: Step) returns (added: Option<Project>)
    ensures Do(st, step).projects == if added.Some? then st.projects + [added.value] else st.projects
  {
    hide Find;
    var more := Do(st, step).projects;
    added := if |more| > |st.projects| then Some(more[|st.projects|]) else None;
  }

  lemma StepCanSucceed(st: State, step: Step, c: nat)
    requires CanSucceed(st, c) && OwnStepsWork([step], c)
    ensures CanSucceed(Do(st, step), c)
  {
    assert [step][0] == step;
    if c < |st.calls| {
      var slug := st.calls[c].slug;
      FindSome(st.projects, slug);
      if st.calls[c].phase.Recovering? { StoredStays(st, step, slug); }
      hide Stored, Find;
    }
  }

  lemma {:induction false} WorkingCallCanSucceed(steps: seq<Step>, c: nat)
    requires OwnStepsWork(steps, c)
    ensures CanSucceed(Run(steps), c)
  {
    if |steps| > 0 {
      var front, step := steps[..|steps| - 1], steps[|steps| - 1];
      assert OwnStepsWork(front, c) && OwnStepsWork([step], c);
      hide CanSucceed, Do, OwnStepsWork;
      WorkingCallCanSucceed(front, c);
      StepCanSucceed(Run(front), step, c);
    }
  }

  /** Whatever other calls do in between and however their database calls end, a
      call whose own all work, once it has taken its steps, has succeeded with a
      project stored under its slug. */
  lemma WorkingCallSucceeds(steps: seq<Step>, c: nat, a: nat, b: nat, d: nat, e: nat)
    requires OwnStepsWork(steps, c) && a < b < d < e < |steps| && c < |Run(steps[..a]).calls|
    requires steps[a] == Lookup(c, Works) && steps[b] == Insert(c, Works)
    requires steps[d] == LookupAgain(c, Works) && steps[e] == Notify(c)
    ensures var st := Run(steps);
            && c < |st.calls| && st.calls[c].phase.Succeeded?
            && exists i :: 0 <= i < |st.projects| && st.projects[i] == Project(st.calls[c].phase.id, st.calls[c].slug)
  {
    RunTakes(steps, a, a, c);
    RunTakes(steps, a + 1, b, c);
    RunTakes(steps, b + 1, d, c);
    RunTakes(steps, d + 1, e, c);
    RunAdvances(steps, e + 1, |steps|, c);
    assert steps[..|steps|] == steps;
    WorkingCallCanSucceed(steps, c);
    RunKeepsInv(steps);
    SucceededIsStored(Run(steps), c);
    hide Run, Do;
  }

  lemma RunTakes(steps: seq<Step>, j: nat, k: nat, c: nat)
    requires j <= k < |steps| && c < |Run(steps[..j]).calls|
    ensures var (was, st) := (StageOf(Run(steps[..j]), c), Run(steps[..k + 1]));
            && c < |st.calls| && StageOf(st, c) >= was
            && (steps[k].Lookup? && steps[k].call == c ==> StageOf(st, c) >= 1)
            && (steps[k].Insert? && steps[k].call == c && was >= 1 ==> StageOf(st, c) >= 2)
            && (steps[k].LookupAgain? && steps[k].call == c && was >= 2 ==> StageOf(st, c) >= 3)
            && (steps[k].Notify? && steps[k].call == c && was >= 3 ==> StageOf(st, c) >= 4)
  {
    hide *;
    RunAdvances(steps, j, k, c);
    RunStep(steps, k);
    StepAdvances(Run(steps[..k]), steps[k], c);
  }

  lemma SucceededIsStored(st: State, c: nat)
    requires Inv(st)
    ensures c < |st.calls| && st.calls[c].phase.Succeeded? ==>
              exists i :: 0 <= i < |st.projects| && st.projects[i] == Project(st.calls[c].phase.id, st.calls[c].slug)
  {
    if c < |st.calls| { assert CallOk(st, st.calls[c]); }
  }

  // ----- one call on its own

  /** The steps of a call nothing interrupts; those its outcome skips are not
      enabled. */
  function Alone(slug: string, lookup: Outcome, insert: Outcome, again: Outcome): seq<Step> {
    [Begin(slug), Lookup(0, lookup), Insert(0, insert), LookupAgain(0, again), Notify(0)]
  }

  lemma RunAlone(st: State, slug: string, lookup: Outcome, insert: Outcome, again: Outcome)
    ensures RunFrom(st, Alone(slug, lookup, insert, again)) ==
            Do(Do(Do(Do(Do(st, Begin(slug)), Lookup(0, lookup)), Insert(0, insert)), LookupAgain(0, again)), Notify(0))
  {
    hide Do;
    var one, two := [Begin(slug)], [Begin(slug), Lookup(0, lookup)];
    var three := two + [Insert(0, insert)];
    var four := three + [LookupAgain(0, again)];
    RunLast(st, [], Begin(slug));
    assert [] + [Begin(slug)] == one && one + [Lookup(0, lookup)] == two;
    RunLast(st, one, Lookup(0, lookup));
    RunLast(st, two, Insert(0, insert));
    RunLast(st, three, LookupAgain(0, again));
    RunLast(st, four, Notify(0));
    assert four + [Notify(0)] == Alone(slug, lookup, insert, again);
  }

  lemma RunLast(st: State, steps: seq<Step>, step: Step)
    ensures RunFrom(st, steps + [step]) == Do(RunFrom(st, steps), step)
  {
    assert (steps + [step])[..|steps|] == steps;
  }

  /** Where the steps of an uninterrupted call end. */
  lemma AloneEnds(projects: seq<Project>, notified: seq<nat>, nextId: nat, slug: string, lookup: Outcome, insert: Outcome, again: Outcome)
    ensures var (found, more) := (Find(projects, slug), projects + [Project(nextId, slug)]);
            RunFrom(State(projects, [], notified, nextId), Alone(slug, lookup, insert, again)) ==
            if lookup != Works then State(projects, [Call(slug, Failed)], notified, nextId)
            else if found.Some? then State(projects, [Call(slug, Succeeded(found.value))], notified, nextId)
            else
              match insert
              case Breaks => State(projects, [Call(slug, Failed)], notified, nextId + 1)
              case Works => State(more, [Call(slug, Succeeded(nextId))], notified + [nextId], nextId + 1)
              case CommitsThenBreaks =>
                State(more, [Call(slug, if again == Works then Succeeded(nextId) else Failed)], notified, nextId + 1)
  {
    RunAlone(State(projects, [], notified, nextId), slug, lookup, insert, again);
    if Find(projects, slug).None? { FindAdded(projects, Project(nextId, slug)); }
    hide RunFrom, Alone, Find;
  }

  lemma {:induction false} FindAdded(projects: seq<Project>, p: Project)
    requires Find(projects, p.slug).None?
    ensures Find(projects + [p], p.slug) == Some(p.id)
  {
    if |projects| > 0 {
      assert (projects + [p])[1..] == projects[1..] + [p];
      FindAdded(projects[1..], p);
    }
  }

  /** The project table and the calls of the auth service that use it. */
  class Service {
    var projects: seq<Project>
    var notified: seq<nat>
    var nextId: nat

    constructor ()
      ensures projects == [] && notified == [] && nextId == 0
    {
      projects, notified, nextId := [], [], 0;
    }

    method GetProjectBySlug(slug: string) returns (id: Option<nat>)
      ensures id == Find(projects, slug)
      ensures id.Some? ==> exists i :: 0 <= i < |projects| && projects[i] == Project(id.value, slug)
      ensures id.None? <==> forall i :: 0 <= i < |projects| ==> projects[i].slug != slug
    {
      FindStored(projects, slug);
      id := None;
      for i := 0 to |projects|
        invariant id.None? && Find(projects, slug) == Find(projects[i..], slug)
      {
        if projects[i].slug == slug { return Some(projects[i].id); }
      }
    }

    method CreateProject(p: Project, outcome: Outcome) returns (ok: bool)
      modifies this`projects
      ensures ok <==> outcome == Works && Find(old(projects), p.slug).None?
      ensures projects == if outcome == Breaks || Find(old(projects), p.slug).Some? then old(projects) else old(projects) + [p]
      ensures (exists i :: 0 <= i < |old(projects)| && old(projects)[i].slug == p.slug) ==> !ok && projects == old(projects)
      ensures (forall i :: 0 <= i < |old(projects)| ==> old(projects)[i].slug != p.slug) ==>
                (ok <==> outcome == Works) && projects == if outcome == Breaks then old(projects) else old(projects) + [p]
    {
      var taken := GetProjectBySlug(p.slug);
      if taken.Some? || outcome == Breaks { return false; }
      projects := projects + [p];
      ok := outcome == Works;
    }

    method Ensure(slug: string, lookup: Outcome, insert: Outcome, again: Outcome) returns (id: Option<nat>)
      modifies this
      ensures State(projects, [Call(slug, if id.Some? then Succeeded(id.value) else Failed)], notified, nextId) ==
              RunFrom(State(old(projects), [], old(notified), old(nextId)), Alone(slug, lookup, insert, again))
      ensures lookup != Works ==> id == None && unchanged(this)
      ensures lookup == Works && (exists i :: 0 <= i < |old(projects)| && old(projects)[i].slug == slug) ==>
                id.Some? && Project(id.value, slug) in old(projects) && unchanged(this)
      ensures lookup == Works && (forall i :: 0 <= i < |old(projects)| ==> old(projects)[i].slug != slug) ==>
                match insert
                case Works =>
                  && id == Some(old(nextId)) && nextId == old(nextId) + 1
                  && projects == old(projects) + [Project(old(nextId), slug)] && notified == old(notified) + [old(nextId)]
                case Breaks => id == None && projects == old(projects) && notified == old(notified)
                case CommitsThenBreaks =>
                  && id == (if again == Works then Some(old(nextId)) else None)
                  && projects == old(projects) + [Project(old(nextId), slug)] && notified == old(notified)
    {
      hide RunFrom, Alone, Do, Apply, Find;
      AloneEnds(projects, notified, nextId, slug, lookup, insert, again);
      var found := GetProjectBySlug(slug);
      if lookup != Works { return None; }
      if found.Some? { return found; }
      var newId := nextId;
      nextId := nextId + 1;
      var created := CreateProject(Project(newId, slug), insert);
      if !created {
        var existing := GetProjectBySlug(slug);
        if again != Works { return None; }
        if insert == CommitsThenBreaks {
          assert projects[|projects| - 1] == Project(newId, slug);
          FindAdded(old(projects), Project(newId, slug));
        }
        return existing;
      }
      notified := notified + [newId];
      return Some(newId);
    }
  }
}
