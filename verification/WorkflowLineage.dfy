/** What holds of a run once its payloads are the ones the step handlers make: every fetched and
    extracted page is one of the selected pages, so no join lists an output twice, and a complete
    answer means that no step failed. */
module WorkflowLineage {
  import opened Wrappers
  import opened WorkflowModel
  import opened WorkflowInvariant
  import opened WorkflowGraph
  import opened WorkflowPreservation
  import opened WorkflowSafety
  import opened WorkflowJoins

  // ---------------------------------------------------------------- what handlers make

  /** What a handler's payload has besides its shape: select lists no page twice, fetch and extract
      pass on the page of their own input, and an answer is complete only without a degradation
      code in its input. */
  predicate Produced(input: Artifact, k: StepKey, out: Artifact) {
    match k
    case Select => out.Selection? ==> NoDuplicates(out.selected)
    case Fetch(_, _) => out.Fetched? ==> input.FetchInput? && out.hit == input.hit
    case Extract(_, _) => out.Extracted? ==> input.Fetched? && out.hit == input.hit
    case Synthesize => out.Answer? && out.quality == Complete ==> input.SynthesisInput? && input.codes == {}
    case _ => true
  }

  predicate ByHandler(s: Run, a: Action) {
    a.DoSucceed? && a.key in s.steps ==> Produced(s.steps[a.key].input, a.key, a.output)
  }

  /** Every success along the trace reports what the step's handler made. */
  predicate HandledTrace(c: Config, s: Run, trace: seq<Action>) {
    if trace == [] then true
    else
      var init := trace[..|trace| - 1];
      HandledTrace(c, s, init) && ByHandler(Exec(c, s, init), trace[|trace| - 1])
  }

  /** A state some sequence of such transitions leads to from a valid submission. */
  ghost predicate Handled(c: Config, s: Run) {
    exists m: Submission, trace: seq<Action> ::
      m.Valid() && HandledTrace(c, Submitted(m), trace) && s == Exec(c, Submitted(m), trace)
  }

  // ---------------------------------------------------------------- what a transition writes

  /** The rows that stand for an item of a list: a planned query or a selected page. */
  predicate Listed(k: StepKey) {
    k.Discover? || FetchOrExtract(k)
  }

  /** A row for a query appears only when the plan succeeds, and a row for a page only when select or
      its fetch does; it is handed that item, or that output. */
  predicate NewRow(t: Run, j: StepKey, a: Action)
    requires j in t.steps
  {
    && a.DoSucceed? && Succ(t.steps, a.key) && t.steps[a.key].output == Some(a.output)
    && t.steps[j].output == None
    && (j.Discover? ==>
          && a.key == Plan && a.output.Planned? && j.query in a.output.queries
          && t.steps[j].input == DiscoveryInput(a.output, j.query))
    && (j.Fetch? ==>
          && a.key == Select && a.output.Selection? && FetchOf(j, a.output.selected, 1)
          && t.steps[j].input == FetchInput(a.output.selected[j.index - 1]))
    && (j.Extract? ==> a.key == Fetch(j.index, j.hit) && a.output.Fetched? && t.steps[j].input == a.output)
  }

  lemma {:induction false} FetchInputs(s: Run, selected: seq<Hit>, index: nat, j: StepKey)
    requires j !in s.steps && j in AddFetches(s, selected, index).steps
    ensures FetchOf(j, selected, index)
    ensures AddFetches(s, selected, index).steps[j].input == FetchInput(selected[j.index - index])
    decreases |selected|
  {
    hide Grown;
    if selected != [] {
      var key := Fetch(index, selected[0].id);
      var t := AddStep(s, key, FetchInput(selected[0]));
      AddFetchesGrows(s, selected, index);
      AddFetchesGrows(t, selected[1..], index + 1);
      if j in t.steps {
        assert j == key;
      } else {
        FetchInputs(t, selected[1..], index + 1, j);
        assert selected[1..][j.index - (index + 1)] == selected[j.index - index];
      }
    }
  }

  lemma {:induction false} DiscoveryInputs(s: Run, plan: Artifact, queries: seq<nat>, j: StepKey)
    requires j !in s.steps && j in AddDiscoveries(s, plan, queries).steps
    ensures j.Discover? && j.query in queries
    ensures AddDiscoveries(s, plan, queries).steps[j].input == DiscoveryInput(plan, j.query)
    decreases |queries|
  {
    hide Grown;
    if queries != [] {
      var t := AddStep(s, Discover(queries[0]), DiscoveryInput(plan, queries[0]));
      AddDiscoveriesGrows(s, plan, queries);
      AddDiscoveriesGrows(t, plan, queries[1..]);
      if j in t.steps {
        assert j == Discover(queries[0]);
        AddedStays(t, AddDiscoveries(t, plan, queries[1..]), j);
      } else {
        DiscoveryInputs(t, plan, queries[1..], j);
      }
    }
  }

  lemma AddedStays(s: Run, t: Run, j: StepKey)
    requires Grown(s, t) && j in s.steps
    ensures j in t.steps && t.steps[j] == s.steps[j]
  {
  }

  lemma FailureAddsNoItem(s: Run, k: StepKey, code: nat)
    ensures var t := OnFailure(s, k, code);
      t.Some? ==> forall j :: j in t.value.steps && Listed(j) ==> j in s.steps
  {
    hide DiscoveryRefs, ExtractRefs, PipelineCodes, FetchExtractDone, OthersDone, EarlyVerify;
  }

  lemma JoinsAddNoItem(s: Run, current: StepKey, codes: set<Code>, j: StepKey)
    requires Listed(j) && j !in s.steps
    ensures MaybeSelect(s).Some? ==> j !in MaybeSelect(s).value.steps
    ensures MaybeSynthesize(s, codes).Some? ==> j !in MaybeSynthesize(s, codes).value.steps
    ensures MaybeVerify(s, current, codes).Some? ==> j !in MaybeVerify(s, current, codes).value.steps
  {
    hide DiscoveryRefs, ExtractRefs, PipelineCodes, FetchExtractDone, OthersDone, EarlyVerify;
  }

  lemma SuccessAddsItems(s: Run, k: StepKey, out: Artifact, j: StepKey)
    requires OnSuccess(s, k, out).Some? && Listed(j) && j !in s.steps && j in OnSuccess(s, k, out).value.steps
    ensures var t := OnSuccess(s, k, out).value;
      && (j.Discover? ==> k == Plan && out.Planned? && j.query in out.queries
                          && t.steps[j].input == DiscoveryInput(out, j.query))
      && (j.Fetch? ==> k == Select && out.Selection? && FetchOf(j, out.selected, 1)
                       && t.steps[j].input == FetchInput(out.selected[j.index - 1]))
      && (j.Extract? ==> k == Fetch(j.index, j.hit) && out.Fetched? && t.steps[j].input == out)
  {
    JoinsAddNoItem(s, k, {}, j);
    hide MaybeSelect, MaybeVerify, MaybeSynthesize, AddFetches, AddDiscoveries;
    if k == Plan && out.Planned? {
      if out.queries != [] { DiscoveryInputs(s, out, out.queries, j); }
    }
    if k == Select && out.Selection? && out.selected != [] {
      FetchInputs(s, out.selected, 1, j);
    }
  }

  /** Inputs never change, outputs only when the step itself succeeds, and new rows are as above. */
  predicate Frame(s: Run, t: Run, a: Action) {
    && (forall j :: j in s.steps ==> j in t.steps && KeptRow(s, t, a, j))
    && (forall j :: j in t.steps && j !in s.steps ==> t.steps[j].output == None)
    && (forall j :: j in t.steps && j !in s.steps && Listed(j) ==> NewRow(t, j, a) && a.key in s.steps)
  }

  predicate KeptRow(s: Run, t: Run, a: Action, j: StepKey)
    requires j in s.steps && j in t.steps
  {
    && t.steps[j].input == s.steps[j].input
    && (t.steps[j].output == s.steps[j].output ||
        (a.DoSucceed? && a.key == j && Succ(t.steps, j) && t.steps[j].output == Some(a.output)))
  }

  lemma ClaimFrame(c: Config, s: Run, k: StepKey, w: Worker, age: nat)
    ensures Frame(s, Claim(c, s, k, w, s.clock - age), DoClaim(k, w, age))
  {
    hide OnFailure, MaxNo;
    var now := s.clock - age;
    if k in s.steps && s.steps[k].status == Ready && !RunTerminal(s.status) && now < s.hard && now >= PhaseDeadline(s, k) {
      var s1 := Put(StartRun(s), k, s.steps[k].(status := Failed, retryAt := None));
      FailureAddsNoItem(s1, k, PhaseDeadlineExceeded);
      OnFailureGrows(s1, k, PhaseDeadlineExceeded);
    }
  }

  lemma SucceedFrame(c: Config, s: Run, a: Action)
    requires a.DoSucceed?
    ensures Frame(s, Next(c, s, a), a)
  {
    hide OnSuccess, IsCurrent, NewRow, Listed, Elapsed, Charged, AddUsage, EndAttempt;
    var now := s.clock - a.age;
    if Accepts(s, a.key, a.no, a.worker) && !RunTerminal(s.status) {
      var s1 := Finish(s, a.key, a.no, a.output, a.cost, now);
      if OnSuccess(s1, a.key, a.output).Some? {
        var t := OnSuccess(s1, a.key, a.output).value;
        OnSuccessGrows(s1, a.key, a.output);
        ItemsOfSuccess(s1, a);
        NewRowLogged(s, t, a);
      }
    }
  }

  lemma ItemsOfSuccess(s1: Run, a: Action)
    requires a.DoSucceed? && OnSuccess(s1, a.key, a.output).Some?
    requires Succ(s1.steps, a.key) && s1.steps[a.key].output == Some(a.output)
    ensures var t := OnSuccess(s1, a.key, a.output).value;
      forall j :: j in t.steps && j !in s1.steps && Listed(j) ==> NewRow(t, j, a)
  {
    hide OnSuccess, NewRow;
    var t := OnSuccess(s1, a.key, a.output).value;
    OnSuccessGrows(s1, a.key, a.output);
    forall j | j in t.steps && j !in s1.steps && Listed(j) ensures NewRow(t, j, a) {
      SuccessAddsItems(s1, a.key, a.output, j);
      NewRowIs(s1, t, j, a);
    }
  }

  lemma NewRowIs(s1: Run, t: Run, j: StepKey, a: Action)
    requires a.DoSucceed? && j in t.steps && j !in s1.steps && Grown(s1, t)
    requires Succ(s1.steps, a.key) && s1.steps[a.key].output == Some(a.output)
    requires j.Discover? ==> a.key == Plan && a.output.Planned? && j.query in a.output.queries
                             && t.steps[j].input == DiscoveryInput(a.output, j.query)
    requires j.Fetch? ==> a.key == Select && a.output.Selection? && FetchOf(j, a.output.selected, 1)
                          && t.steps[j].input == FetchInput(a.output.selected[j.index - 1])
    requires j.Extract? ==> a.key == Fetch(j.index, j.hit) && a.output.Fetched? && t.steps[j].input == a.output
    ensures NewRow(t, j, a)
  {
  }

  lemma NewRowLogged(s: Run, t: Run, a: Action)
    requires a.DoSucceed?
    requires forall j :: j in t.steps && j !in s.steps && Listed(j) ==> NewRow(t, j, a)
    ensures var u := Log(t, StepSucceeded, a.key, a.no);
      forall j :: j in u.steps && j !in s.steps && Listed(j) ==> NewRow(u, j, a)
  {
    var u := Log(t, StepSucceeded, a.key, a.no);
    forall j | j in u.steps && j !in s.steps && Listed(j) ensures NewRow(u, j, a) {
      assert NewRow(t, j, a);
    }
  }

  lemma EndedFrame(s: Run, s1: Run, k: StepKey, code: nat, kind: EventKind, a: Action)
    requires a.DoFail? && k in s.steps && k in s1.steps && s1.steps == s.steps[k := s1.steps[k]]
    requires s1.steps[k].input == s.steps[k].input && s1.steps[k].output == s.steps[k].output
    requires OnFailure(s1, k, code).Some?
    ensures Frame(s, Log(OnFailure(s1, k, code).value, kind, k, a.no), a)
  {
    hide OnFailure, NewRow;
    FailureAddsNoItem(s1, k, code);
    OnFailureGrows(s1, k, code);
  }

  lemma RetryFrame(c: Config, s: Run, k: StepKey, no: nat, now: Time, a: Action)
    requires k in s.steps && 1 <= no
    ensures Frame(s, Log(RetryLater(c, s, k, no, now), StepRetryScheduled, k, no), a)
  {
    hide NewRow, Pow2;
  }

  lemma SameFrame(s: Run, t: Run, a: Action)
    requires t.steps == s.steps
    ensures Frame(s, t, a)
  {
    hide NewRow;
  }

  lemma FailFrame(c: Config, s: Run, a: Action)
    requires a.DoFail?
    ensures Frame(s, Next(c, s, a), a)
  {
    hide OnFailure, IsCurrent, NewRow, Pow2, Frame, RetryLater;
    var k, no, now := a.key, a.no, s.clock - a.age;
    SameFrame(s, s, a);
    if Accepts(s, k, no, a.worker) {
      AcceptedNumber(s, k, no, a.worker);
      if RunTerminal(s.status) || a.error.cancelled {
        if OnFailure(Abandon(s, k, no, now), k, a.error.code).Some? {
          EndedFrame(s, Abandon(s, k, no, now), k, a.error.code, StepCancelled, a);
        }
      } else if MayRetry(c, s, k, no, a.error, now) {
        RetryFrame(c, s, k, no, now, a);
      } else if OnFailure(FailStep(s, k, no, now), k, a.error.code).Some? {
        EndedFrame(s, FailStep(s, k, no, now), k, a.error.code, StepFailed, a);
      }
    }
  }

  lemma RecoveryFrame(c: Config, s: Run, a: Action)
    requires a.DoRenew? || a.DoMakeReady? || a.DoMarkDispatched?
    ensures Frame(s, Next(c, s, a), a)
  {
    hide NewRow, IsCurrent, OpenLease, ExpireAttempts, ExtendLease;
  }

  lemma NextFrame(c: Config, s: Run, a: Action)
    ensures Frame(s, Next(c, s, a), a)
  {
    hide Claim, Succeed, Fail, Renew, MakeReady, MarkDispatched, NewRow, KeptRow;
    if a.DoClaim? {
      ClaimFrame(c, s, a.key, a.worker, a.age);
    } else if a.DoSucceed? {
      SucceedFrame(c, s, a);
    } else if a.DoFail? {
      FailFrame(c, s, a);
    } else if a.DoRenew? || a.DoMakeReady? || a.DoMarkDispatched? {
      RecoveryFrame(c, s, a);
    } else {
      SameFrame(s, Next(c, s, a), a);
    }
  }

  // ---------------------------------------------------------------- every page was selected

  predicate Selected(m: StepMap, index: nat, id: nat, hit: Hit) {
    && Select in m && m[Select].output.Some? && m[Select].output.value.Selection?
    && var selected := m[Select].output.value.selected;
       1 <= index <= |selected| && selected[index - 1] == hit && hit.id == id
  }

  /** The page a fetch or extract was handed, and the one it passed on, is the selected page at its
      own place. */
  predicate Traced(m: StepMap, j: StepKey)
    requires j in m
  {
    && (j.Fetch? ==>
          && m[j].input.FetchInput? && Selected(m, j.index, j.hit, m[j].input.hit)
          && (m[j].output.Some? ==> m[j].output.value.Fetched? && Selected(m, j.index, j.hit, m[j].output.value.hit)))
    && (j.Extract? ==>
          && m[j].input.Fetched? && Selected(m, j.index, j.hit, m[j].input.hit)
          && (m[j].output.Some? ==> m[j].output.value.Extracted? && Selected(m, j.index, j.hit, m[j].output.value.hit)))
  }

  predicate SelectedOnce(m: StepMap) {
    Select in m && m[Select].output.Some? && m[Select].output.value.Selection? ==>
      NoDuplicates(m[Select].output.value.selected)
  }

  predicate Lineage(m: StepMap) {
    SelectedOnce(m) && forall j :: j in m ==> Traced(m, j)
  }

  /** An output, once there, stays. */
  lemma OutputStays(c: Config, s: Run, t: Run, k: StepKey)
    requires Locals(s) && Monotone(s, t) && k in s.steps && s.steps[k].output.Some?
    ensures k in t.steps && t.steps[k] == s.steps[k]
  {
    assert StepOk(k, s.steps[k], s.hard);
  }

  lemma SelectedStays(c: Config, s: Run, t: Run, index: nat, id: nat, hit: Hit)
    requires Locals(s) && Monotone(s, t) && Selected(s.steps, index, id, hit)
    ensures Selected(t.steps, index, id, hit)
  {
    hide Locals, Monotone;
    OutputStays(c, s, t, Select);
  }

  lemma OldRowTraced(c: Config, s: Run, t: Run, a: Action, j: StepKey)
    requires Locals(s) && Locals(t) && Monotone(s, t) && ByHandler(s, a)
    requires j in s.steps && j in t.steps && KeptRow(s, t, a, j) && Traced(s.steps, j)
    ensures Traced(t.steps, j)
  {
    hide Monotone;
    if FetchOrExtract(j) {
      SelectedStays(c, s, t, j.index, j.hit, s.steps[j].input.hit);
      if t.steps[j].output == s.steps[j].output {
        if s.steps[j].output.Some? {
          SelectedStays(c, s, t, j.index, j.hit, s.steps[j].output.value.hit);
        }
      } else {
        assert StepOk(j, t.steps[j], t.hard);
      }
    }
  }

  lemma NewRowTraced(t: Run, j: StepKey, a: Action)
    requires j in t.steps && FetchOrExtract(j) && NewRow(t, j, a) && (j.Extract? ==> Traced(t.steps, a.key))
    ensures Traced(t.steps, j)
  {
  }

  lemma LineageKept(c: Config, s: Run, a: Action)
    requires Inv(c, s) && ByHandler(s, a) && Lineage(s.steps)
    ensures Lineage(Next(c, s, a).steps)
  {
    NextKeeps(c, s, a);
    NextMonotone(c, s, a);
    NextFrame(c, s, a);
    hide Next, Lineage, Locals, Monotone, Frame, Rows, Graph, Live, RunOk, Accounts, History;
    LineageStep(c, s, Next(c, s, a), a);
  }

  lemma LineageStep(c: Config, s: Run, t: Run, a: Action)
    requires Locals(s) && Locals(t) && Monotone(s, t) && Frame(s, t, a) && ByHandler(s, a) && Lineage(s.steps)
    ensures Lineage(t.steps)
  {
    SelectionKept(c, s, t, a);
    hide Traced, Locals, NewRow, Monotone, KeptRow, SelectedOnce, ByHandler;
    forall j | j in t.steps ensures Traced(t.steps, j) {
      if j in s.steps {
        OldRowTraced(c, s, t, a, j);
      } else if FetchOrExtract(j) {
        FetchFirst(c, s, t, a, j);
        NewRowTraced(t, j, a);
      } else {
        NoPage(t.steps, j);
      }
    }
  }

  lemma NoPage(m: StepMap, j: StepKey)
    requires j in m && !FetchOrExtract(j)
    ensures Traced(m, j)
  {
  }

  /** The fetch whose output a new extract row is handed was there before, and is traced. */
  lemma FetchFirst(c: Config, s: Run, t: Run, a: Action, j: StepKey)
    requires Locals(s) && Locals(t) && Monotone(s, t) && ByHandler(s, a) && Frame(s, t, a)
    requires forall i :: i in s.steps ==> Traced(s.steps, i)
    requires j in t.steps && j !in s.steps && FetchOrExtract(j)
    ensures NewRow(t, j, a) && (j.Extract? ==> Traced(t.steps, a.key))
  {
    hide Monotone, Locals, Traced;
    assert NewRow(t, j, a);
    if j.Extract? {
      OldRowTraced(c, s, t, a, a.key);
    }
  }

  lemma SelectionKept(c: Config, s: Run, t: Run, a: Action)
    requires Locals(s) && Monotone(s, t) && ByHandler(s, a) && Frame(s, t, a) && SelectedOnce(s.steps)
    ensures SelectedOnce(t.steps)
  {
    hide Monotone, Locals, NewRow, NoDuplicates;
    if Select in s.steps {
      assert KeptRow(s, t, a, Select);
    }
  }

  // ---------------------------------------------------------------- verify is handed distinct outputs

  /** Two extracts with the same output have the same page, hence the same place in the selection. */
  lemma LineageKeepsApart(m: StepMap)
    requires Lineage(m)
    ensures OutputsApart(m)
  {
    forall j, k | ExtractSucceeded(m, j) && ExtractSucceeded(m, k) && m[j].output == m[k].output ensures j == k {
      assert Traced(m, j) && Traced(m, k);
    }
  }

  ghost predicate VerifyDistinct(m: StepMap) {
    Verify in m ==>
      && m[Verify].input.VerifyInput? && NoDuplicates(m[Verify].input.extracts)
      && forall x :: x in m[Verify].input.extracts ==> ExtractOutput(m, x)
  }

  lemma ExtractOutputStays(c: Config, s: Run, t: Run, x: Artifact)
    requires Locals(s) && Monotone(s, t) && ExtractOutput(s.steps, x)
    ensures ExtractOutput(t.steps, x)
  {
    hide Locals, Monotone;
    var e :| e in s.steps && e.Extract? && s.steps[e].status == Succeeded && s.steps[e].output == Some(x);
    OutputStays(c, s, t, e);
  }

  lemma VerifyDistinctKept(c: Config, s: Run, a: Action)
    requires Inv(c, s) && ByHandler(s, a) && Lineage(s.steps) && VerifyDistinct(s.steps)
    ensures VerifyDistinct(Next(c, s, a).steps)
  {
    var t := Next(c, s, a);
    NextMonotone(c, s, a);
    LineageKept(c, s, a);
    LineageKeepsApart(t.steps);
    assert Locals(s);
    hide Next, Inv, Locals, Lineage, NoDuplicates, OutputsApart, ExtractOutput;
    if Verify in s.steps {
      assert StepMonotone(s.steps[Verify], t.steps[Verify]);
      forall x | x in s.steps[Verify].input.extracts ensures ExtractOutput(t.steps, x) {
        ExtractOutputStays(c, s, t, x);
      }
    } else if Verify in t.steps {
      VerifyInputIsExact(c, s, a);
    }
  }

  // ---------------------------------------------------------------- complete means nothing failed

  /** The input of synthesize stays what the other rows tell. */
  predicate CodesTell(m: StepMap) {
    Synthesize in m ==> SynthesisTold(m)
  }

  lemma SameOthersSameCodes(m: StepMap, t: StepMap)
    requires CodesTell(m) && Synthesize in m && t.Keys == m.Keys && t[Synthesize].input == m[Synthesize].input
    requires forall k :: k in m && k != Synthesize ==> t[k] == m[k]
    ensures CodesTell(t)
  {
    assert AllSucceeded(t) <==> AllSucceeded(m);
    forall kind, cancelled ensures EndedSo(t, kind, cancelled) <==> EndedSo(m, kind, cancelled) {
      EndedSoUnchanged(m, t, kind, cancelled);
    }
  }

  lemma CodesTellKept(c: Config, s: Run, a: Action)
    requires Inv(c, s) && CodesTell(s.steps)
    ensures CodesTell(Next(c, s, a).steps)
  {
    var t := Next(c, s, a);
    NextMonotone(c, s, a);
    if Synthesize in s.steps {
      NoNewKey(c, s, a);
      assert Barrier(s.steps, Synthesize);
      hide Next, Inv, SynthesisTold;
      SameOthersSameCodes(s.steps, t.steps);
    } else if Synthesize in t.steps {
      SynthesisInputIsExact(c, s, a);
    }
  }

  /** The run's outcome is what its synthesize step reported. */
  predicate OutcomeTold(s: Run) {
    s.outcome.Some? ==>
      && Synthesize in s.steps && s.steps[Synthesize].output.Some? && s.steps[Synthesize].output.value.Answer?
      && s.outcome.value.0 == s.steps[Synthesize].output.value.quality
  }

  /** A complete answer was handed no degradation code. */
  predicate CompleteIsClean(m: StepMap) {
    Synthesize in m && m[Synthesize].output.Some? && m[Synthesize].output.value.Answer?
      && m[Synthesize].output.value.quality == Complete
    ==> m[Synthesize].input.SynthesisInput? && m[Synthesize].input.codes == {}
  }

  lemma OutcomeFrame(c: Config, s: Run, a: Action)
    ensures var t := Next(c, s, a);
      t.outcome == s.outcome ||
      (a.DoSucceed? && a.key == Synthesize && a.output.Answer? && Succ(t.steps, Synthesize)
       && t.steps[Synthesize].output == Some(a.output) && t.outcome == Some((a.output.quality, a.output.reason)))
  {
    hide IsCurrent, OpenLease, ExpireAttempts, ExtendLease, MaxNo, OnFailure, OnSuccess, Pow2;
    match a
    case DoClaim(k, w, age) =>
      if k in s.steps {
        OnFailureGrows(Put(StartRun(s), k, s.steps[k].(status := Failed, retryAt := None)), k, PhaseDeadlineExceeded);
      }
    case DoSucceed(k, no, w, out, cost, age) => SucceedOutcome(s, k, no, w, out, cost, s.clock - age);
    case DoFail(k, no, w, e, age) =>
      if k in s.steps {
        OnFailureGrows(Abandon(s, k, no, s.clock - age), k, e.code);
        OnFailureGrows(FailStep(s, k, no, s.clock - age), k, e.code);
      }
    case _ =>
  }

  lemma SucceedOutcome(s: Run, k: StepKey, no: nat, w: Worker, out: Artifact, cost: Charge, now: Time)
    ensures var t := Succeed(s, k, no, w, out, cost, now);
      t.outcome == s.outcome ||
      (k == Synthesize && out.Answer? && Succ(t.steps, k) && t.steps[k].output == Some(out)
       && t.outcome == Some((out.quality, out.reason)))
  {
    hide IsCurrent, MaybeSelect, MaybeVerify, MaybeSynthesize, AddFetches, AddDiscoveries;
    if Accepts(s, k, no, w) {
      OnSuccessGrows(Finish(s, k, no, out, cost, now), k, out);
    }
  }

  lemma OutcomeKept(c: Config, s: Run, a: Action)
    requires Inv(c, s) && ByHandler(s, a) && OutcomeTold(s) && CompleteIsClean(s.steps)
    ensures OutcomeTold(Next(c, s, a)) && CompleteIsClean(Next(c, s, a).steps)
  {
    NextMonotone(c, s, a);
    NextFrame(c, s, a);
    OutcomeFrame(c, s, a);
    assert Locals(s);
    hide Next, Inv, Locals, Frame, Monotone, OutcomeTold, CompleteIsClean, ByHandler;
    OutcomeStep(c, s, Next(c, s, a), a);
  }

  lemma OutcomeStep(c: Config, s: Run, t: Run, a: Action)
    requires Locals(s) && Monotone(s, t) && Frame(s, t, a) && ByHandler(s, a)
    requires t.outcome == s.outcome ||
      (a.DoSucceed? && a.key == Synthesize && a.output.Answer? && Succ(t.steps, Synthesize)
       && t.steps[Synthesize].output == Some(a.output) && t.outcome == Some((a.output.quality, a.output.reason)))
    requires OutcomeTold(s) && CompleteIsClean(s.steps)
    ensures OutcomeTold(t) && CompleteIsClean(t.steps)
  {
    hide Locals, NewRow;
    if Synthesize in s.steps {
      assert KeptRow(s, t, a, Synthesize);
      if s.steps[Synthesize].output.Some? {
        OutputStays(c, s, t, Synthesize);
      }
    }
  }

  // ---------------------------------------------------------------- all handled runs

  ghost predicate HandledInv(c: Config, s: Run) {
    && Inv(c, s) && Lineage(s.steps) && VerifyDistinct(s.steps)
    && CodesTell(s.steps) && OutcomeTold(s) && CompleteIsClean(s.steps)
  }

  lemma {:induction false} HandledKeeps(c: Config, m: Submission, trace: seq<Action>)
    requires m.Valid() && HandledTrace(c, Submitted(m), trace)
    ensures HandledInv(c, Exec(c, Submitted(m), trace))
  {
    if trace == [] {
      SubmittedOk(c, m);
      hide Inv;
    } else {
      var init := trace[..|trace| - 1];
      var s, a := Exec(c, Submitted(m), init), trace[|trace| - 1];
      HandledKeeps(c, m, init);
      hide Inv, Next, Submitted, Lineage, VerifyDistinct, CodesTell, OutcomeTold, CompleteIsClean, ByHandler;
      NextKeeps(c, s, a);
      LineageKept(c, s, a);
      VerifyDistinctKept(c, s, a);
      CodesTellKept(c, s, a);
      OutcomeKept(c, s, a);
    }
  }

  lemma HandledOk(c: Config, s: Run)
    requires Handled(c, s)
    ensures HandledInv(c, s) && Reachable(c, s)
  {
    hide HandledInv, Exec, Submitted;
    var m: Submission, trace: seq<Action> :|
      m.Valid() && HandledTrace(c, Submitted(m), trace) && s == Exec(c, Submitted(m), trace);
    HandledKeeps(c, m, trace);
  }

  /** At its creation the verify step is handed exactly the outputs of the extracts that have
      succeeded by then, each once. */
  lemma VerifyStartsDistinct(c: Config, s: Run, a: Action)
    requires Handled(c, s) && ByHandler(s, a) && Verify !in s.steps && Verify in Next(c, s, a).steps
    ensures var t := Next(c, s, a);
      && t.steps[Verify].input.VerifyInput?
      && NoDuplicates(t.steps[Verify].input.extracts)
      && forall x :: x in t.steps[Verify].input.extracts <==> ExtractOutput(t.steps, x)
  {
    HandledOk(c, s);
    VerifyDistinctKept(c, s, a);
    VerifyInputIsExact(c, s, a);
    hide Handled, Inv, Lineage, CodesTell, OutcomeTold, CompleteIsClean, NoDuplicates, ExtractOutput, Next, OutputsApart;
  }

  /** And so its input lists no output twice in any state, and only outputs of successful extracts. */
  lemma VerifyInputIsDistinct(c: Config, s: Run)
    requires Handled(c, s) && Verify in s.steps
    ensures s.steps[Verify].input.VerifyInput?
    ensures NoDuplicates(s.steps[Verify].input.extracts)
    ensures forall a :: a in s.steps[Verify].input.extracts ==> ExtractOutput(s.steps, a)
  {
    HandledOk(c, s);
    hide Handled, Inv, Lineage, CodesTell, OutcomeTold, CompleteIsClean, NoDuplicates;
  }

  /** A run ends COMPLETE only if every one of its steps succeeded. */
  lemma CompleteMeansAllSucceeded(c: Config, s: Run)
    requires Handled(c, s) && s.outcome.Some? && s.outcome.value.0 == Complete
    ensures forall k :: k in s.steps ==> s.steps[k].status == Succeeded
  {
    HandledOk(c, s);
    hide Handled, Lineage, VerifyDistinct, Rows, Graph, Live, Accounts, History, Locals;
  }
}
