/** What each success schedules, row by row: the plan, every query's discovery, every selected page's
    fetch, every fetched page's extract, and the verify step as soon as it is due. */
module WorkflowSchedule {
  import opened Wrappers
  import opened WorkflowModel
  import opened WorkflowInvariant
  import opened WorkflowGraph
  import opened WorkflowPreservation
  import opened WorkflowSafety
  import opened WorkflowJoins
  import opened WorkflowLineage

  // ---------------------------------------------------------------- rows a success adds

  /** A row just created: READY, with its input, and with an outbox row to deliver. */
  predicate Fresh(t: Run, k: StepKey, input: Artifact) {
    && k in t.steps && k in t.unpublished && k in t.order
    && t.steps[k].status == Ready && t.steps[k].input == input && t.steps[k].attempts == []
  }

  /** The report is accepted while the run is active, and its payload has the step's shape. */
  predicate Completes(s: Run, a: Action) {
    a.DoSucceed? && Accepts(s, a.key, a.no, a.worker) && !RunTerminal(s.status) && Fits(a.key, a.output)
  }

  lemma FreshStep(s: Run, k: StepKey, input: Artifact)
    requires k !in s.steps
    ensures Fresh(AddStep(s, k, input), k, input)
  {
  }

  lemma FreshStays(s: Run, t: Run, k: StepKey, input: Artifact)
    requires Fresh(s, k, input) && Grown(s, t)
    ensures Fresh(t, k, input)
  {
    var i :| 0 <= i < |s.order| && s.order[i] == k;
    assert t.order[..|s.order|][i] == k;
  }

  lemma {:induction false} FreshDiscoveries(s: Run, plan: Artifact, queries: seq<nat>, q: nat)
    requires q in queries && Discover(q) !in s.steps
    ensures Fresh(AddDiscoveries(s, plan, queries), Discover(q), DiscoveryInput(plan, q))
    decreases |queries|
  {
    hide Fresh, Grown;
    var t := AddStep(s, Discover(queries[0]), DiscoveryInput(plan, queries[0]));
    AddStepGrows(s, Discover(queries[0]), DiscoveryInput(plan, queries[0]));
    if q == queries[0] {
      FreshStep(s, Discover(q), DiscoveryInput(plan, q));
      AddDiscoveriesGrows(t, plan, queries[1..]);
      FreshStays(t, AddDiscoveries(t, plan, queries[1..]), Discover(q), DiscoveryInput(plan, q));
    } else {
      FreshDiscoveries(t, plan, queries[1..], q);
    }
  }

  lemma {:induction false} FreshFetches(s: Run, selected: seq<Hit>, index: nat, i: nat)
    requires i < |selected| && Fetch(index + i, selected[i].id) !in s.steps
    ensures Fresh(AddFetches(s, selected, index), Fetch(index + i, selected[i].id), FetchInput(selected[i]))
    decreases |selected|
  {
    hide Fresh, Grown;
    var key := Fetch(index, selected[0].id);
    var t := AddStep(s, key, FetchInput(selected[0]));
    AddStepGrows(s, key, FetchInput(selected[0]));
    if i == 0 {
      FreshStep(s, key, FetchInput(selected[0]));
      AddFetchesGrows(t, selected[1..], index + 1);
      FreshStays(t, AddFetches(t, selected[1..], index + 1), key, FetchInput(selected[0]));
    } else {
      FreshFetches(t, selected[1..], index + 1, i - 1);
    }
  }

  lemma CompletedIs(c: Config, s: Run, a: Action)
    requires Inv(c, s) && Completes(s, a) && a.key != Synthesize
    ensures var s1 := Finish(s, a.key, a.no, a.output, a.cost, s.clock - a.age);
      && OnSuccess(s1, a.key, a.output).Some?
      && Next(c, s, a) == Log(OnSuccess(s1, a.key, a.output).value, StepSucceeded, a.key, a.no)
      && s1.steps.Keys == s.steps.Keys
      && s1.steps == s.steps[a.key := s1.steps[a.key]]
      && s1.steps[a.key].output == Some(a.output) && s1.steps[a.key].status == Succeeded
      && s1.steps[a.key].input == s.steps[a.key].input
      && Rows(s1) && Locals(s1) && s1.mode == s.mode && s1.status == s.status
  {
    hide OnSuccess, IsCurrent, Graph, Live, Accounts, History, Rows, Locals, Books;
    FinishKeeps(c, s, a.key, a.no, a.worker, a.output, a.cost, s.clock - a.age);
    RunningStepRunningRun(c, s, a.key);
    OnSuccessHealthy(Finish(s, a.key, a.no, a.output, a.cost, s.clock - a.age), s.steps, a.key, a.output);
  }

  lemma NotYet(c: Config, s: Run, k: StepKey)
    requires Inv(c, s) && k in s.steps && s.steps[k].status == Running
    ensures k == Route ==> Plan !in s.steps
    ensures k == Plan ==> forall j :: j in s.steps ==> !j.Discover?
    ensures k == Select ==> forall j :: j in s.steps ==> !FetchOrExtract(j)
    ensures k.Fetch? ==> Extract(k.index, k.hit) !in s.steps
  {
    hide Live, Rows, Locals, RunOk, Accounts, History;
    PhaseOrder(s.steps, k);
  }

  /** A successful route hands its output to the plan step. */
  lemma RouteSchedulesPlan(c: Config, s: Run, a: Action)
    requires Reachable(c, s) && Completes(s, a) && a.key == Route
    ensures Fresh(Next(c, s, a), Plan, a.output)
    ensures Next(c, s, a).steps.Keys == s.steps.Keys + {Plan}
  {
    ReachableOk(c, s);
    hide Inv, Completes;
    CompletedIs(c, s, a);
    NotYet(c, s, Route);
    var s1 := Finish(s, a.key, a.no, a.output, a.cost, s.clock - a.age);
    FreshStep(s1, Plan, a.output);
    AddStepGrows(s1, Plan, a.output);
  }

  /** A successful plan schedules the discovery of each of its queries, and only of those. */
  lemma PlanSchedulesDiscoveries(c: Config, s: Run, a: Action)
    requires Reachable(c, s) && Completes(s, a) && a.key == Plan
    ensures forall q :: q in a.output.queries ==>
      Fresh(Next(c, s, a), Discover(q), DiscoveryInput(a.output, q))
    ensures forall j :: j in Next(c, s, a).steps && j !in s.steps ==>
      if a.output.queries == [] then j == Synthesize else j.Discover? && j.query in a.output.queries
  {
    ReachableOk(c, s);
    hide Inv, Completes;
    CompletedIs(c, s, a);
    NotYet(c, s, Plan);
    var s1 := Finish(s, a.key, a.no, a.output, a.cost, s.clock - a.age);
    hide Finish, Fresh, Rows, Locals;
    if a.output.queries == [] {
      OnlySynthesize(s1, {});
    } else {
      AddDiscoveriesGrows(s1, a.output, a.output.queries);
      forall q | q in a.output.queries ensures Fresh(Next(c, s, a), Discover(q), DiscoveryInput(a.output, q)) {
        FreshDiscoveries(s1, a.output, a.output.queries, q);
        FreshLogged(AddDiscoveries(s1, a.output, a.output.queries), Discover(q), DiscoveryInput(a.output, q), a);
      }
    }
  }

  lemma OnlySynthesize(s: Run, codes: set<Code>)
    ensures MaybeSynthesize(s, codes).Some? ==>
      forall j :: j in MaybeSynthesize(s, codes).value.steps && j !in s.steps ==> j == Synthesize
  {
  }

  lemma FreshLogged(t: Run, k: StepKey, input: Artifact, a: Action)
    requires Fresh(t, k, input) && a.DoSucceed?
    ensures Fresh(Log(t, StepSucceeded, a.key, a.no), k, input)
  {
  }

  lemma SelectHook(s: Run, out: Artifact)
    requires out.Selection?
    ensures OnSuccess(s, Select, out) ==
      if out.selected == [] then MaybeSynthesize(s, {}) else Some(AddFetches(s, out.selected, 1))
  {
    hide MaybeSynthesize, AddFetches;
  }

  /** The state holds the fetch rows of these pages, and of rows not in `s` no other but those. */
  ghost predicate FetchesScheduled(s: Run, t: Run, selected: seq<Hit>) {
    && (forall i :: 0 <= i < |selected| ==> Fresh(t, Fetch(i + 1, selected[i].id), FetchInput(selected[i])))
    && (forall j :: j in t.steps && j !in s.steps ==>
          if selected == [] then j == Synthesize
          else j.Fetch? && 1 <= j.index <= |selected| && j.hit == selected[j.index - 1].id)
  }

  lemma FetchesFollow(s1: Run, selected: seq<Hit>, a: Action)
    requires a.DoSucceed? && selected != [] && forall j :: j in s1.steps ==> !j.Fetch?
    ensures FetchesScheduled(s1, Log(AddFetches(s1, selected, 1), StepSucceeded, a.key, a.no), selected)
  {
    AddFetchesGrows(s1, selected, 1);
    hide Fresh, Grown, AddFetches;
    var t := AddFetches(s1, selected, 1);
    forall i | 0 <= i < |selected|
      ensures Fresh(Log(t, StepSucceeded, a.key, a.no), Fetch(i + 1, selected[i].id), FetchInput(selected[i]))
    {
      FreshFetches(s1, selected, 1, i);
      FreshLogged(t, Fetch(i + 1, selected[i].id), FetchInput(selected[i]), a);
    }
  }

  /** A successful select schedules the fetch of each selected page, and only of those. */
  lemma SelectSchedulesFetches(c: Config, s: Run, a: Action)
    requires Reachable(c, s) && Completes(s, a) && a.key == Select
    ensures a.output.Selection? && FetchesScheduled(s, Next(c, s, a), a.output.selected)
  {
    hide Finish, Fresh, Rows, Locals, Next, AddFetches, OnSuccess, Accepts, MaybeSynthesize, FetchesScheduled;
    ReachableOk(c, s);
    hide Inv, Reachable;
    AcceptedRuns(s, a);
    NotYet(c, s, Select);
    CompletedIs(c, s, a);
    var s1 := Finish(s, a.key, a.no, a.output, a.cost, s.clock - a.age);
    SelectHook(s1, a.output);
    if a.output.selected == [] {
      OnlySynthesize(s1, {});
      NoFetches(s1, Next(c, s, a));
    } else {
      FetchesFollow(s1, a.output.selected, a);
    }
    ScheduledSince(s, s1, Next(c, s, a), a.output.selected);
  }

  lemma NoFetches(s1: Run, t: Run)
    requires forall j :: j in t.steps && j !in s1.steps ==> j == Synthesize
    ensures FetchesScheduled(s1, t, [])
  {
  }

  lemma ScheduledSince(s: Run, s1: Run, t: Run, selected: seq<Hit>)
    requires s1.steps.Keys == s.steps.Keys && FetchesScheduled(s1, t, selected)
    ensures FetchesScheduled(s, t, selected)
  {
    hide Fresh;
  }

  lemma FetchHook(s: Run, k: StepKey, out: Artifact)
    requires k.Fetch? && out.Fetched?
    ensures OnSuccess(s, k, out) == Some(AddStep(s, Extract(k.index, k.hit), out))
  {
    hide AddStep;
  }

  lemma FreshAfter(s1: Run, t: Run, e: StepKey, input: Artifact, a: Action)
    requires a.DoSucceed? && e !in s1.steps && t == Log(AddStep(s1, e, input), StepSucceeded, a.key, a.no)
    ensures Fresh(t, e, input) && t.steps.Keys == s1.steps.Keys + {e}
  {
  }

  /** A successful fetch hands its output to the extract step of the same page. */
  lemma FetchSchedulesExtract(c: Config, s: Run, a: Action)
    requires Reachable(c, s) && Completes(s, a) && a.key.Fetch?
    ensures Fresh(Next(c, s, a), Extract(a.key.index, a.key.hit), a.output)
    ensures Next(c, s, a).steps.Keys == s.steps.Keys + {Extract(a.key.index, a.key.hit)}
  {
    hide Finish, Fresh, Rows, Locals, Next, AddStep, OnSuccess, Log, Accepts;
    ReachableOk(c, s);
    hide Inv, Reachable;
    NotYet(c, s, a.key) by { AcceptedRuns(s, a); }
    CompletedIs(c, s, a);
    var s1 := Finish(s, a.key, a.no, a.output, a.cost, s.clock - a.age);
    FetchHook(s1, a.key, a.output);
    FreshAfter(s1, Next(c, s, a), Extract(a.key.index, a.key.hit), a.output, a);
  }

  lemma AcceptedRuns(s: Run, a: Action)
    requires Completes(s, a)
    ensures a.key in s.steps && s.steps[a.key].status == Running && Fits(a.key, a.output)
  {
  }

  // ---------------------------------------------------------------- in every state

  /** What a success scheduled is there for good, and was made from that success's output. */
  predicate Owes(m: StepMap, k: StepKey)
    requires k in m && m[k].output.Some?
  {
    var out := m[k].output.value;
    match k
    case Route => Plan in m && m[Plan].input == out
    case Plan => out.Planned? &&
      forall q :: q in out.queries ==> Discover(q) in m && m[Discover(q)].input == DiscoveryInput(out, q)
    case Select => out.Selection? &&
      forall i :: 0 <= i < |out.selected| ==>
        && Fetch(i + 1, out.selected[i].id) in m
        && m[Fetch(i + 1, out.selected[i].id)].input == FetchInput(out.selected[i])
    case Fetch(i, h) => Extract(i, h) in m && m[Extract(i, h)].input == out
    case _ => true
  }

  predicate Scheduled(m: StepMap) {
    forall k :: k in m && m[k].output.Some? ==> Owes(m, k)
  }

  /** A row of a list stands for one of the items of that list. */
  predicate Asked(m: StepMap, j: StepKey)
    requires j in m
  {
    && (j.Discover? ==>
          Succ(m, Plan) && m[Plan].output.Some? && m[Plan].output.value.Planned? &&
          j.query in m[Plan].output.value.queries)
    && (j.Fetch? ==>
          Succ(m, Select) && m[Select].output.Some? && m[Select].output.value.Selection? &&
          FetchOf(j, m[Select].output.value.selected, 1))
    && (j.Extract? ==> Succ(m, Fetch(j.index, j.hit)) && m[Fetch(j.index, j.hit)].output == Some(m[j].input))
  }

  predicate AllAsked(m: StepMap) {
    forall j :: j in m ==> Asked(m, j)
  }

  lemma InputStays(s: Run, t: Run, a: Action, j: StepKey)
    requires Frame(s, t, a) && j in s.steps
    ensures j in t.steps && t.steps[j].input == s.steps[j].input
  {
    assert KeptRow(s, t, a, j);
  }

  lemma OweStays(c: Config, s: Run, t: Run, a: Action, k: StepKey)
    requires Locals(s) && Monotone(s, t) && Frame(s, t, a)
    requires k in s.steps && s.steps[k].output.Some? && Owes(s.steps, k)
    ensures k in t.steps && t.steps[k] == s.steps[k] && Owes(t.steps, k)
  {
    hide Locals, Monotone, Frame;
    OutputStays(c, s, t, k);
    var out := s.steps[k].output.value;
    match k
    case Route => InputStays(s, t, a, Plan);
    case Plan =>
      forall q | q in out.queries
        ensures Discover(q) in t.steps && t.steps[Discover(q)].input == DiscoveryInput(out, q)
      {
        InputStays(s, t, a, Discover(q));
      }
    case Select =>
      forall i | 0 <= i < |out.selected|
        ensures Fetch(i + 1, out.selected[i].id) in t.steps
        ensures t.steps[Fetch(i + 1, out.selected[i].id)].input == FetchInput(out.selected[i])
      {
        InputStays(s, t, a, Fetch(i + 1, out.selected[i].id));
      }
    case Fetch(i, h) => InputStays(s, t, a, Extract(i, h));
    case _ =>
  }

  /** A step succeeds only by an accepted report in an active run. */
  lemma SucceededNow(c: Config, s: Run, a: Action)
    requires a.DoSucceed? && a.key in s.steps && s.steps[a.key].output == None
    requires a.key in Next(c, s, a).steps && Succ(Next(c, s, a).steps, a.key)
    requires Locals(s)
    ensures Completes(s, a)
  {
    hide IsCurrent, OnSuccess, AttemptsOk;
    assert StepOk(a.key, s.steps[a.key], s.hard);
    RaisesOnShape(Finish(s, a.key, a.no, a.output, a.cost, s.clock - a.age), a.key, a.output) by {
      assert a.key in s.steps;
    }
  }

  lemma RaisesOnShape(s: Run, k: StepKey, out: Artifact)
    ensures !Fits(k, out) ==> OnSuccess(s, k, out) == None
  {
  }

  lemma SchedulesNow(c: Config, s: Run, a: Action)
    requires Reachable(c, s) && Completes(s, a) && a.key in Next(c, s, a).steps
    requires Next(c, s, a).steps[a.key].output == Some(a.output)
    ensures Owes(Next(c, s, a).steps, a.key)
  {
    var t, out := Next(c, s, a), a.output;
    hide Next, Reachable;
    match a.key
    case Route => RouteSchedulesPlan(c, s, a);
    case Plan => PlanSchedulesDiscoveries(c, s, a);
    case Select =>
      SelectSchedulesFetches(c, s, a);
      forall i | 0 <= i < |out.selected|
        ensures Fetch(i + 1, out.selected[i].id) in t.steps
        ensures t.steps[Fetch(i + 1, out.selected[i].id)].input == FetchInput(out.selected[i])
      {
        assert Fresh(t, Fetch(i + 1, out.selected[i].id), FetchInput(out.selected[i]));
      }
    case Fetch(i, h) => FetchSchedulesExtract(c, s, a);
    case _ =>
  }

  lemma ScheduledKept(c: Config, s: Run, a: Action)
    requires Reachable(c, s) && Scheduled(s.steps)
    ensures Scheduled(Next(c, s, a).steps)
  {
    var t := Next(c, s, a);
    ReachableOk(c, s);
    NextMonotone(c, s, a);
    NextFrame(c, s, a);
    assert Locals(s);
    hide Next, Reachable, Inv, Locals, Monotone, Owes, NewRow, Completes;
    forall k | k in t.steps && t.steps[k].output.Some? ensures Owes(t.steps, k) {
      assert k in s.steps && KeptRow(s, t, a, k);
      if s.steps[k].output.Some? {
        OweStays(c, s, t, a, k);
      } else {
        SucceededNow(c, s, a);
        SchedulesNow(c, s, a);
      }
    }
  }

  lemma AskedStays(c: Config, s: Run, t: Run, a: Action, j: StepKey)
    requires Locals(s) && Monotone(s, t) && Frame(s, t, a) && j in s.steps && Asked(s.steps, j)
    ensures j in t.steps && Asked(t.steps, j)
  {
    hide Locals, Monotone, Frame;
    InputStays(s, t, a, j);
    match j
    case Discover(_) => OutputStays(c, s, t, Plan);
    case Fetch(_, _) => OutputStays(c, s, t, Select);
    case Extract(i, h) => OutputStays(c, s, t, Fetch(i, h));
    case _ =>
  }

  lemma AllAskedKept(c: Config, s: Run, a: Action)
    requires Inv(c, s) && AllAsked(s.steps)
    ensures AllAsked(Next(c, s, a).steps)
  {
    var t := Next(c, s, a);
    NextMonotone(c, s, a);
    NextFrame(c, s, a);
    assert Locals(s);
    hide Next, Inv, Locals, Monotone, Asked, NewRow, KeptRow;
    forall j | j in t.steps ensures Asked(t.steps, j) {
      if j in s.steps {
        AskedStays(c, s, t, a, j);
      } else if Listed(j) {
        NewRowAsked(t, j, a);
      } else {
        NotListed(t.steps, j);
      }
    }
  }

  lemma NewRowAsked(t: Run, j: StepKey, a: Action)
    requires j in t.steps && Listed(j) && NewRow(t, j, a)
    ensures Asked(t.steps, j)
  {
  }

  lemma NotListed(m: StepMap, j: StepKey)
    requires j in m && !Listed(j)
    ensures Asked(m, j)
  {
  }

  lemma {:induction false} ScheduledRun(c: Config, m: Submission, trace: seq<Action>)
    requires m.Valid()
    ensures Scheduled(Exec(c, Submitted(m), trace).steps) && AllAsked(Exec(c, Submitted(m), trace).steps)
  {
    if trace != [] {
      var init := trace[..|trace| - 1];
      var s := Exec(c, Submitted(m), init);
      ScheduledRun(c, m, init);
      hide Inv, Next, Submitted, Scheduled, AllAsked;
      assert Reachable(c, s);
      ReachableOk(c, s);
      ScheduledKept(c, s, trace[|trace| - 1]);
      AllAskedKept(c, s, trace[|trace| - 1]);
    }
  }

  /** In every state the plan, discovery, fetch and extract rows are exactly the ones the steps that
      have succeeded call for, each with the input made from that step's output. */
  lemma RowsAreScheduled(c: Config, s: Run)
    requires Reachable(c, s)
    ensures forall k :: k in s.steps && s.steps[k].output.Some? ==> Owes(s.steps, k)
    ensures forall j :: j in s.steps ==> Asked(s.steps, j)
  {
    hide Exec, Submitted, Owes, Asked;
    var m: Submission, trace: seq<Action> :| m.Valid() && s == Exec(c, Submitted(m), trace);
    ScheduledRun(c, m, trace);
  }

  // ---------------------------------------------------------------- verify is not forgotten

  /** While the run is active, verify exists once some extract has succeeded and either no fetch or
      extract is unfinished or what was extracted is enough for FAST. */
  ghost predicate VerifyDue(s: Run) {
    !RunTerminal(s.status) && HasExtract(s.steps) && (FetchExtractDone(s.steps) || EnoughForFast(s)) ==>
      Verify in s.steps
  }

  lemma MaybeVerifyDue(s: Run, current: StepKey, codes: set<Code>)
    requires Rows(s) && Locals(s) && MaybeVerify(s, current, codes).Some?
    ensures VerifyDue(MaybeVerify(s, current, codes).value)
  {
    hide Rows, Locals, ExtractRefs, EarlyVerify, EnoughForFast, MaybeSynthesize, FetchExtractDone, HasExtract;
    if HasExtract(s.steps) {
      NoExtractWaits(s, current);
    }
    if PlanRef(s).Some? {
      EarlyVerifyIs(s, current);
    }
    SynthesizeIsNoExtract(s, codes);
  }

  lemma SynthesizeIsNoExtract(s: Run, codes: set<Code>)
    ensures var t := MaybeSynthesize(s, codes);
      t.Some? ==> (Verify in s.steps ==> Verify in t.value.steps) && (HasExtract(t.value.steps) ==> HasExtract(s.steps))
  {
    hide OthersDone, PipelineCodes, VerifyRef, ProviderFailures;
    var t := MaybeSynthesize(s, codes);
    if t.Some? && HasExtract(t.value.steps) {
      var e :| e in t.value.steps && e.Extract? && t.value.steps[e].status == Succeeded;
      assert e in s.steps && s.steps[e].status == Succeeded;
    }
  }

  lemma NoExtractWaits(s: Run, current: StepKey)
    requires Rows(s) && Locals(s) && HasExtract(s.steps)
    ensures ExtractRefs(s, current) != []
  {
    var e :| e in s.steps && e.Extract? && s.steps[e].status == Succeeded;
    assert StepOk(e, s.steps[e], s.hard);
    ExtractRefsAre(s, current, s.steps[e].output.value);
  }

  /** Nothing the condition speaks of has come true. */
  ghost predicate NoNewCause(s: Run, t: Run) {
    && (!RunTerminal(t.status) ==> !RunTerminal(s.status)) && t.mode == s.mode
    && (Verify in s.steps ==> Verify in t.steps)
    && (forall j :: ExtractSucceeded(t.steps, j) <==> ExtractSucceeded(s.steps, j))
    && (forall j :: ExtractSucceeded(t.steps, j) ==> t.steps[j].output == s.steps[j].output)
    && (FetchExtractDone(t.steps) ==> FetchExtractDone(s.steps))
    && (HasExtract(s.steps) ==> Succ(s.steps, Plan) && Plan in t.steps && t.steps[Plan] == s.steps[Plan])
  }

  lemma DueStays(s: Run, t: Run)
    requires VerifyDue(s) && NoNewCause(s, t) && Locals(s) && Locals(t)
    ensures VerifyDue(t)
  {
    if HasExtract(t.steps) {
      var e :| e in t.steps && e.Extract? && t.steps[e].status == Succeeded;
      assert StepOk(e, t.steps[e], t.hard);
      assert ExtractSucceeded(t.steps, e);
      assert HasExtract(s.steps);
      hide Locals, StepOk, FetchExtractDone, HasExtract;
      if EnoughForFast(t) {
        EnoughBefore(s, t);
      }
    }
  }

  lemma EnoughBefore(s: Run, t: Run)
    requires NoNewCause(s, t) && HasExtract(s.steps) && EnoughForFast(t)
    ensures EnoughForFast(s)
  {
    hide HasExtract, FetchExtractDone;
    forall f | LooksFor(t.steps, f) ensures LooksFor(s.steps, f) {
      var j :| j in t.steps && ExtractSucceeded(t.steps, j) && t.steps[j].output.value.Extracted?
               && f in t.steps[j].output.value.hit.facts;
      assert ExtractSucceeded(s.steps, j);
    }
    hide LooksFor;
  }

  /** A step leaves its unfinished status only by its own report or its own claim. */
  lemma OnlyKeyEnds(c: Config, s: Run, a: Action, j: StepKey)
    requires Pending(s.steps, j) && j in Next(c, s, a).steps && Terminal(Next(c, s, a).steps[j].status)
    ensures (a.DoClaim? || a.DoSucceed? || a.DoFail?) && a.key == j
  {
    hide OnSuccess, OnFailure, IsCurrent, OpenLease, ExpireAttempts, ExtendLease, MaxNo, Pow2;
    var now := if a.DoClaim? || a.DoSucceed? || a.DoFail? then s.clock - a.age else s.clock;
    match a
    case DoClaim(k, w, age) =>
      if k in s.steps {
        OnFailureGrows(Put(StartRun(s), k, s.steps[k].(status := Failed, retryAt := None)), k, PhaseDeadlineExceeded);
      }
    case DoSucceed(k, no, w, out, cost, age) =>
      if k in s.steps {
        OnSuccessGrows(Finish(s, k, no, out, cost, now), k, out);
      }
    case DoFail(k, no, w, e, age) =>
      if k in s.steps {
        OnFailureGrows(Abandon(s, k, no, now), k, e.code);
        OnFailureGrows(FailStep(s, k, no, now), k, e.code);
      }
    case _ =>
  }

  lemma LoggedDue(t: Run, kind: EventKind, k: StepKey, no: nat)
    requires VerifyDue(t)
    ensures VerifyDue(Log(t, kind, k, no))
  {
    var u := Log(t, kind, k, no);
    assert u.steps == t.steps && u.status == t.status && u.mode == t.mode;
  }

  /** The step ends, and the run stays active. */
  predicate Ends(s: Run, t: Run, k: StepKey) {
    Pending(s.steps, k) && k in t.steps && Terminal(t.steps[k].status) && !RunTerminal(t.status)
  }

  /** When a fetch or extract ends in a run that stays active, the join has just looked. */
  lemma PageEnds(c: Config, s: Run, a: Action)
    requires Inv(c, s) && (a.DoClaim? || a.DoSucceed? || a.DoFail?) && FetchOrExtract(a.key)
    requires Ends(s, Next(c, s, a), a.key) && !(a.DoSucceed? && a.key.Fetch?)
    ensures VerifyDue(Next(c, s, a))
  {
    hide Inv, VerifyDue, Claim, Succeed, Fail, Books;
    match a
    case DoClaim(k, w, age) => ClaimDue(c, s, k, w, s.clock - age);
    case DoSucceed(k, no, w, out, cost, age) => SucceedDue(c, s, k, no, w, out, cost, s.clock - age);
    case DoFail(k, no, w, e, age) => FailDue(c, s, k, no, w, e, s.clock - age);
  }

  lemma FailureLooks(s: Run, k: StepKey, code: nat)
    requires FetchOrExtract(k) && !RunTerminal(s.status) && Rows(s) && Locals(s)
    ensures OnFailure(s, k, code).Some? ==> VerifyDue(OnFailure(s, k, code).value)
  {
    hide MaybeVerify, VerifyDue, Rows, Locals;
    if MaybeVerify(s, k, {Reported(code)}).Some? {
      MaybeVerifyDue(s, k, {Reported(code)});
    }
  }

  lemma ClaimEnds(c: Config, s: Run, k: StepKey, w: Worker, now: Time)
    requires Ends(s, Claim(c, s, k, w, now), k)
    ensures s.steps[k].status == Ready && !RunTerminal(s.status)
    ensures var t := OnFailure(MissedPhase(s, k), k, PhaseDeadlineExceeded);
      t.Some? ==> Claim(c, s, k, w, now) == Log(t.value, StepPhaseDeadline, k, 0)
  {
    hide OnFailure, MaxNo, PhaseDeadline;
  }

  lemma ClaimDue(c: Config, s: Run, k: StepKey, w: Worker, now: Time)
    requires FetchOrExtract(k) && Ends(s, Claim(c, s, k, w, now), k)
    requires Inv(c, s)
    ensures VerifyDue(Claim(c, s, k, w, now))
  {
    ClaimEnds(c, s, k, w, now);
    hide Inv, Books, OnFailure, Rows, Locals, VerifyDue, Claim, Log, MissedPhase;
    MissedPhaseBooks(c, s, k);
    FailureLooks(MissedPhase(s, k), k, PhaseDeadlineExceeded);
    LoggedDue(OnFailure(MissedPhase(s, k), k, PhaseDeadlineExceeded).value, StepPhaseDeadline, k, 0);
  }

  lemma SucceedEnds(s: Run, k: StepKey, no: nat, w: Worker, out: Artifact, cost: Charge, now: Time)
    requires k.Extract? && Ends(s, Succeed(s, k, no, w, out, cost, now), k)
    ensures Accepts(s, k, no, w) && Fits(k, out)
    ensures var t := MaybeVerify(Finish(s, k, no, out, cost, now), k, {});
      t.Some? && Succeed(s, k, no, w, out, cost, now) == Log(t.value, StepSucceeded, k, no)
  {
    hide MaybeVerify, IsCurrent, Finish;
  }

  lemma SucceedDue(c: Config, s: Run, k: StepKey, no: nat, w: Worker, out: Artifact, cost: Charge, now: Time)
    requires k.Extract? && Ends(s, Succeed(s, k, no, w, out, cost, now), k)
    requires Inv(c, s)
    ensures VerifyDue(Succeed(s, k, no, w, out, cost, now))
  {
    SucceedEnds(s, k, no, w, out, cost, now);
    hide Inv, Books, Accepts, Rows, Locals, VerifyDue, MaybeVerify, Finish, Fits, Succeed, Log, JustEnded;
    var s1 := Finish(s, k, no, out, cost, now);
    FinishKeeps(c, s, k, no, w, out, cost, now);
    MaybeVerifyDue(s1, k, {});
    LoggedDue(MaybeVerify(s1, k, {}).value, StepSucceeded, k, no);
  }

  lemma FailEnds(c: Config, s: Run, k: StepKey, no: nat, w: Worker, e: StepError, now: Time)
    requires Ends(s, Fail(c, s, k, no, w, e, now), k)
    ensures Accepts(s, k, no, w) && !RunTerminal(s.status)
    ensures var t := OnFailure(if e.cancelled then Abandon(s, k, no, now) else FailStep(s, k, no, now), k, e.code);
      t.Some? && Fail(c, s, k, no, w, e, now) == Log(t.value, if e.cancelled then StepCancelled else StepFailed, k, no)
  {
    hide OnFailure, IsCurrent, RetryDelay, EndAttempt;
    if RunTerminal(s.status) && Accepts(s, k, no, w) {
      HookStatus(Abandon(s, k, no, now), k, e.code);
    }
  }

  lemma FailDue(c: Config, s: Run, k: StepKey, no: nat, w: Worker, e: StepError, now: Time)
    requires FetchOrExtract(k) && Ends(s, Fail(c, s, k, no, w, e, now), k)
    requires Inv(c, s)
    ensures VerifyDue(Fail(c, s, k, no, w, e, now))
  {
    FailEnds(c, s, k, no, w, e, now);
    hide Inv, Books, OnFailure, Rows, Locals, VerifyDue, EndAttempt, Accepts, Log, Fail;
    AbandonKeeps(c, s, k, no, w, now);
    FailStepKeeps(c, s, k, no, w, now);
    var s1 := if e.cancelled then Abandon(s, k, no, now) else FailStep(s, k, no, now);
    FailureLooks(s1, k, e.code);
    LoggedDue(OnFailure(s1, k, e.code).value, if e.cancelled then StepCancelled else StepFailed, k, no);
  }

  predicate PageEnded(s: Run, t: Run, a: Action) {
    && (a.DoClaim? || a.DoSucceed? || a.DoFail?) && FetchOrExtract(a.key)
    && Pending(s.steps, a.key) && a.key in t.steps && Terminal(t.steps[a.key].status)
  }

  lemma ExtractNeedsPlan(m: StepMap)
    requires Graph(m) && HasExtract(m)
    ensures Succ(m, Plan)
  {
    var e :| e in m && e.Extract? && m[e].status == Succeeded;
    assert Barrier(m, e);
    assert Barrier(m, Select);
  }

  lemma SameExtract(c: Config, s: Run, t: Run, a: Action, j: StepKey)
    requires Locals(s) && Locals(t) && Monotone(s, t) && Frame(s, t, a)
    requires j.Extract? && (!PageEnded(s, t, a) || a.key.Fetch?)
    ensures ExtractSucceeded(t.steps, j) <==> ExtractSucceeded(s.steps, j)
    ensures ExtractSucceeded(t.steps, j) ==> t.steps[j].output == s.steps[j].output
  {
    if j in s.steps {
      assert KeptRow(s, t, a, j) && StepMonotone(s.steps[j], t.steps[j]);
      assert StepOk(j, s.steps[j], s.hard) && StepOk(j, t.steps[j], t.hard);
    }
  }

  lemma NoCause(c: Config, s: Run, t: Run, a: Action)
    requires Monotone(s, t) && Frame(s, t, a) && !RunTerminal(t.status)
    requires PageEnded(s, t, a) ==> a.key.Fetch? && !FetchExtractDone(t.steps)
    requires Locals(s) && Locals(t) && Graph(s.steps)
    requires t == Next(c, s, a)
    ensures NoNewCause(s, t)
  {
    hide Next, Locals, Graph, KeptRow, NewRow, HasExtract, FetchExtractDone, PageEnded;
    if HasExtract(s.steps) {
      ExtractNeedsPlan(s.steps);
      PlanStays(c, s, t);
    }
    forall j
      ensures ExtractSucceeded(t.steps, j) <==> ExtractSucceeded(s.steps, j)
      ensures ExtractSucceeded(t.steps, j) ==> t.steps[j].output == s.steps[j].output
    {
      SameOutput(c, s, t, a, j);
    }
    NoPageEnds(c, s, t, a);
  }

  lemma SameOutput(c: Config, s: Run, t: Run, a: Action, j: StepKey)
    requires Locals(s) && Locals(t) && Monotone(s, t) && Frame(s, t, a)
    requires !PageEnded(s, t, a) || a.key.Fetch?
    ensures ExtractSucceeded(t.steps, j) <==> ExtractSucceeded(s.steps, j)
    ensures ExtractSucceeded(t.steps, j) ==> t.steps[j].output == s.steps[j].output
  {
    if j.Extract? {
      hide Locals, Monotone, Frame;
      SameExtract(c, s, t, a, j);
    }
  }

  lemma PlanStays(c: Config, s: Run, t: Run)
    requires Locals(s) && Monotone(s, t) && Succ(s.steps, Plan)
    ensures Plan in t.steps && t.steps[Plan] == s.steps[Plan]
  {
    assert StepMonotone(s.steps[Plan], t.steps[Plan]);
  }

  lemma NoPageEnds(c: Config, s: Run, t: Run, a: Action)
    requires t == Next(c, s, a) && Frame(s, t, a)
    requires PageEnded(s, t, a) ==> !FetchExtractDone(t.steps)
    ensures FetchExtractDone(t.steps) ==> FetchExtractDone(s.steps)
  {
    hide Next, KeptRow, NewRow;
    if FetchExtractDone(t.steps) {
      forall j | j in s.steps && FetchOrExtract(j) ensures Terminal(s.steps[j].status) {
        if !Terminal(s.steps[j].status) {
          OnlyKeyEnds(c, s, a, j);
        }
      }
    }
  }

  lemma FetchLeavesExtract(c: Config, s: Run, a: Action)
    requires Reachable(c, s) && a.DoSucceed? && a.key.Fetch? && Ends(s, Next(c, s, a), a.key)
    ensures !FetchExtractDone(Next(c, s, a).steps)
  {
    var t, e := Next(c, s, a), Extract(a.key.index, a.key.hit);
    FetchCompletes(c, s, a);
    FetchSchedulesExtract(c, s, a);
    hide Next, Reachable;
    assert e in t.steps && FetchOrExtract(e) && !Terminal(t.steps[e].status);
  }

  lemma FetchCompletes(c: Config, s: Run, a: Action)
    requires a.DoSucceed? && a.key.Fetch? && Ends(s, Next(c, s, a), a.key)
    ensures Completes(s, a)
  {
    hide IsCurrent, AddStep, Finish;
  }

  lemma DueKept(c: Config, s: Run, a: Action)
    requires Reachable(c, s) && VerifyDue(s)
    ensures VerifyDue(Next(c, s, a))
  {
    var t := Next(c, s, a);
    ReachableOk(c, s);
    NextKeeps(c, s, a);
    NextMonotone(c, s, a);
    NextFrame(c, s, a);
    assert Locals(s) && Locals(t);
    hide Next, Reachable, Inv, Locals, VerifyDue, Monotone, Frame;
    if RunTerminal(t.status) {
      EndedOwesNothing(t);
    } else if PageEnded(s, t, a) && !(a.DoSucceed? && a.key.Fetch?) {
      PageEnds(c, s, a);
    } else {
      if PageEnded(s, t, a) {
        FetchLeavesExtract(c, s, a);
      }
      NoCause(c, s, t, a);
      DueStays(s, t);
    }
  }

  lemma EndedOwesNothing(t: Run)
    requires RunTerminal(t.status)
    ensures VerifyDue(t)
  {
  }

  lemma {:induction false} DueRun(c: Config, m: Submission, trace: seq<Action>)
    requires m.Valid()
    ensures VerifyDue(Exec(c, Submitted(m), trace))
  {
    if trace != [] {
      var init := trace[..|trace| - 1];
      DueRun(c, m, init);
      assert Reachable(c, Exec(c, Submitted(m), init));
      hide Next, Submitted, VerifyDue, Reachable;
      DueKept(c, Exec(c, Submitted(m), init), trace[|trace| - 1]);
    }
  }

  /** No active run forgets to verify: the step is there as soon as some extract has succeeded and
      either every fetch and extract has ended or what was extracted is enough for FAST. */
  lemma VerifyIsScheduled(c: Config, s: Run)
    requires Reachable(c, s) && !RunTerminal(s.status) && HasExtract(s.steps)
    requires FetchExtractDone(s.steps) || EnoughForFast(s)
    ensures Verify in s.steps
  {
    hide Exec, Submitted, HasExtract, FetchExtractDone, EnoughForFast;
    var m: Submission, trace: seq<Action> :| m.Valid() && s == Exec(c, Submitted(m), trace);
    DueRun(c, m, trace);
  }
}
