/** What every reachable state of a run satisfies. */
module WorkflowInvariant {
  import opened Wrappers
  import opened WorkflowModel

  // ---------------------------------------------------------------- one step row

  predicate AttemptsOk(a: seq<Attempt>, hard: Time) {
    && (forall i :: 0 <= i < |a| ==> a[i].no == i + 1)
    && (forall i :: 0 <= i < |a| - 1 ==> a[i].end.Errored?)
    && (forall i :: 0 <= i < |a| ==> a[i].leasedUntil <= a[i].deadline <= hard)
  }

  /** RUNNING means exactly one open attempt, the newest; an output means success, by the
      newest attempt; a retry time means waiting, and it lies before the hard deadline. */
  predicate StepOk(k: StepKey, st: Step, hard: Time) {
    && AttemptsOk(st.attempts, hard)
    && (st.status == Running <==> |st.attempts| > 0 && st.attempts[|st.attempts| - 1].end.Open?)
    && (st.status == Succeeded <==> |st.attempts| > 0 && st.attempts[|st.attempts| - 1].end.Done?)
    && (st.status == Succeeded <==> st.output.Some?)
    && (st.status == Succeeded ==>
          st.output == Some(st.attempts[|st.attempts| - 1].end.output) && Fits(k, st.output.value))
    && (st.status == RetryWait <==> st.retryAt.Some?)
    && (st.status == RetryWait ==> st.retryAt.value < hard)
    && st.status != Skipped
  }

  predicate Locals(s: Run) {
    forall k :: k in s.steps ==> StepOk(k, s.steps[k], s.hard)
  }

  ghost predicate Rows(s: Run) {
    && (forall k :: k in s.order <==> k in s.steps)
    && (forall i, j :: 0 <= i < j < |s.order| ==> s.order[i] != s.order[j])
    && s.unpublished <= s.steps.Keys
  }

  // ---------------------------------------------------------------- the step graph

  predicate HasExtract(m: StepMap) {
    exists k :: k in m && k.Extract? && m[k].status == Succeeded
  }

  predicate HasFetch(m: StepMap) {
    exists k :: k in m && k.Fetch?
  }

  /** Why a step of this key could be created: its barrier. */
  predicate Barrier(m: StepMap, k: StepKey) {
    match k
    case Route => true
    case Plan => Succ(m, Route)
    case Discover(_) => Succ(m, Plan)
    case Select => Succ(m, Plan) && HasDiscover(m) && DiscoverDone(m)
    case Fetch(_, _) => Succ(m, Select)
    case Extract(i, h) => Succ(m, Fetch(i, h)) && Succ(m, Select)
    case Verify => Succ(m, Select) && HasExtract(m)
    case Synthesize => Succ(m, Plan) && OthersDone(m)
  }

  predicate Graph(m: StepMap) {
    && Route in m
    && (forall k :: k in m ==> Barrier(m, k))
  }

  /** What an unfinished run still owes: whenever a join's condition holds, its step exists. */
  predicate Live(m: StepMap)
    requires Route in m
  {
    && (Terminal(m[Route].status) ==> Succ(m, Route) && Plan in m)
    && (Plan in m && Terminal(m[Plan].status) ==> Succ(m, Plan) && (HasDiscover(m) || Synthesize in m))
    && (HasDiscover(m) && DiscoverDone(m) ==> Select in m)
    && (Select in m && Terminal(m[Select].status) ==> HasFetch(m) || Synthesize in m)
    && (forall k :: k in m && k.Fetch? && m[k].status == Succeeded ==> Extract(k.index, k.hit) in m)
    && (HasFetch(m) && FetchExtractDone(m) ==> Verify in m || Synthesize in m)
    && (Verify in m && Terminal(m[Verify].status) && FetchExtractDone(m) ==> Synthesize in m)
    && (Synthesize in m ==> !Terminal(m[Synthesize].status))
  }

  // ---------------------------------------------------------------- the run row

  predicate RunOk(s: Run) {
    && s.soft <= s.hard && 0 < s.reserve
    && s.status != RunWaiting
    && (s.status == RunQueued ==> forall k :: k in s.steps ==> s.steps[k].status == Ready)
    && (s.status == RunSucceeded <==> s.outcome.Some?)
    && (s.outcome.Some? ==> ConsistentAnswer(s.outcome.value.0, s.outcome.value.1) && Succ(s.steps, Synthesize))
  }

  // ---------------------------------------------------------------- accounting

  /** What a step was charged for: the cost of its successful attempt. */
  function StepCost(st: Step): Usage {
    if |st.attempts| > 0 && st.attempts[|st.attempts| - 1].end.Done?
    then st.attempts[|st.attempts| - 1].end.cost else NoUsage
  }

  function TotalCost(m: StepMap, order: seq<StepKey>): Usage {
    if order == [] then NoUsage
    else
      var k := order[|order| - 1];
      AddUsage(TotalCost(m, order[..|order| - 1]), if k in m then StepCost(m[k]) else NoUsage)
  }

  function CountEvents(events: seq<Event>, kind: EventKind, k: StepKey): nat {
    if events == [] then 0
    else
      var e := events[|events| - 1];
      CountEvents(events[..|events| - 1], kind, k) + (if e.kind == kind && e.key == k then 1 else 0)
  }

  function EndedAttempts(st: Step): nat {
    if st.status == Running && |st.attempts| > 0 then |st.attempts| - 1 else |st.attempts|
  }

  predicate HistoryOk(c: Config, s: Run, k: StepKey) {
    && CountEvents(s.events, StepSucceeded, k) == (if Succ(s.steps, k) then 1 else 0)
    && CountEvents(s.events, StepRetryScheduled, k) <=
         (if k in s.steps then Min(EndedAttempts(s.steps[k]), AttemptLimit(c, k) - 1) else 0)
  }

  ghost predicate History(c: Config, s: Run) {
    forall k :: HistoryOk(c, s, k)
  }

  predicate Accounts(s: Run) {
    s.usage == TotalCost(s.steps, s.order)
  }

  ghost predicate Inv(c: Config, s: Run) {
    && Rows(s)
    && Locals(s)
    && Graph(s.steps)
    && (!RunTerminal(s.status) ==> Live(s.steps))
    && RunOk(s)
    && Accounts(s)
    && History(c, s)
  }

  // ---------------------------------------------------------------- sequences of attempts

  lemma {:induction false} MaxNoIs(a: seq<Attempt>)
    requires forall i :: 0 <= i < |a| ==> a[i].no == i + 1
    ensures MaxNo(a) == |a|
  {
    if a != [] {
      MaxNoIs(a[..|a| - 1]);
    }
  }

  lemma {:induction false} AttemptNoIs(a: seq<Attempt>, no: nat)
    requires forall i :: 0 <= i < |a| ==> a[i].no == i + 1
    ensures AttemptNo(a, no) == if 1 <= no <= |a| then Some(a[no - 1]) else None
  {
    if a != [] && a[|a| - 1].no != no {
      AttemptNoIs(a[..|a| - 1], no);
    }
  }

  lemma {:induction false} OpenLeaseIs(a: seq<Attempt>)
    requires forall i :: 0 <= i < |a| - 1 ==> a[i].end.Errored?
    ensures OpenLease(a) == if |a| > 0 && a[|a| - 1].end.Open? then Some(a[|a| - 1].leasedUntil) else None
  {
    if a != [] {
      OpenLeaseIs(a[..|a| - 1]);
    }
  }

  /** In a well-formed step, the accepted report is the newest attempt's, and it is open. */
  lemma AcceptedIsNewest(s: Run, k: StepKey, no: nat, owner: Worker)
    requires Locals(s) && Accepts(s, k, no, owner)
    ensures no == |s.steps[k].attempts| && 1 <= no
    ensures s.steps[k].attempts[no - 1].owner == owner && s.steps[k].attempts[no - 1].end.Open?
    ensures AttemptNo(s.steps[k].attempts, no) == Some(s.steps[k].attempts[no - 1])
  {
    MaxNoIs(s.steps[k].attempts);
    AttemptNoIs(s.steps[k].attempts, no);
  }

  lemma EndAttemptOk(a: seq<Attempt>, hard: Time, end: AttemptEnd)
    requires AttemptsOk(a, hard) && |a| > 0 && a[|a| - 1].end.Open?
    ensures var b := EndAttempt(a, |a|, end);
            AttemptsOk(b, hard) && b == a[..|a| - 1] + [a[|a| - 1].(end := end)]
  {
  }

  // ---------------------------------------------------------------- growth

  /** `t` adds fresh READY rows to `s` and changes at most the run's status and outcome. */
  ghost predicate Grown(s: Run, t: Run) {
    && (forall k :: k in s.steps ==> k in t.steps && t.steps[k] == s.steps[k])
    && (forall k :: k in t.steps && k !in s.steps ==>
          t.steps[k].status == Ready && t.steps[k].attempts == [] && t.steps[k].output == None
          && t.steps[k].retryAt == None && t.steps[k].updatedAt == s.clock && k in t.unpublished)
    && s.unpublished <= t.unpublished
    && |s.order| <= |t.order| && t.order[..|s.order|] == s.order
    && t.usage == s.usage && t.events == s.events && t.clock == s.clock
    && t.mode == s.mode && t.soft == s.soft && t.hard == s.hard && t.reserve == s.reserve
    && (Rows(s) ==> Rows(t))
  }

  lemma AddStepGrows(s: Run, k: StepKey, input: Artifact)
    ensures Grown(s, AddStep(s, k, input))
    ensures AddStep(s, k, input).steps.Keys == s.steps.Keys + {k}
    ensures AddStep(s, k, input).status == s.status && AddStep(s, k, input).outcome == s.outcome
  {
  }

  lemma GrownTrans(s: Run, t: Run, u: Run)
    requires Grown(s, t) && Grown(t, u)
    ensures Grown(s, u)
  {
    assert u.order[..|s.order|] == u.order[..|t.order|][..|s.order|];
  }

  lemma {:induction false} AddDiscoveriesGrows(s: Run, plan: Artifact, queries: seq<nat>)
    ensures var t := AddDiscoveries(s, plan, queries);
            Grown(s, t) && t.status == s.status && t.outcome == s.outcome
    ensures forall k :: k in AddDiscoveries(s, plan, queries).steps <==>
                          k in s.steps || (k.Discover? && k.query in queries)
    decreases |queries|
  {
    if queries != [] {
      var t := AddStep(s, Discover(queries[0]), DiscoveryInput(plan, queries[0]));
      AddStepGrows(s, Discover(queries[0]), DiscoveryInput(plan, queries[0]));
      AddDiscoveriesGrows(t, plan, queries[1..]);
      GrownTrans(s, t, AddDiscoveries(t, plan, queries[1..]));
    }
  }

  predicate FetchOf(k: StepKey, selected: seq<Hit>, index: nat) {
    k.Fetch? && index <= k.index < index + |selected| && selected[k.index - index].id == k.hit
  }

  lemma {:induction false} AddFetchesGrows(s: Run, selected: seq<Hit>, index: nat)
    ensures var t := AddFetches(s, selected, index);
            Grown(s, t) && t.status == s.status && t.outcome == s.outcome
    ensures forall k :: k in AddFetches(s, selected, index).steps <==>
                          k in s.steps || FetchOf(k, selected, index)
    decreases |selected|
  {
    if selected != [] {
      var key := Fetch(index, selected[0].id);
      var t := AddStep(s, key, FetchInput(selected[0]));
      AddStepGrows(s, key, FetchInput(selected[0]));
      AddFetchesGrows(t, selected[1..], index + 1);
      GrownTrans(s, t, AddFetches(t, selected[1..], index + 1));
      forall k ensures FetchOf(k, selected, index) <==> k == key || FetchOf(k, selected[1..], index + 1) {
        if k.Fetch? && index < k.index < index + |selected| {
          assert selected[1..][k.index - (index + 1)] == selected[k.index - index];
        }
      }
    }
  }

  lemma GrownSelf(s: Run)
    ensures Grown(s, s)
  {
    assert s.order[..|s.order|] == s.order;
  }

  lemma MaybeSelectGrows(s: Run)
    ensures var t := MaybeSelect(s);
            t.Some? ==> Grown(s, t.value) && t.value.status == s.status && t.value.outcome == s.outcome
  {
    GrownSelf(s);
    if PlanRef(s).Some? {
      AddStepGrows(s, Select, SelectionInput(PlanRef(s).value, DiscoveryRefs(s.steps, s.order)));
    }
  }

  lemma MaybeSynthesizeGrows(s: Run, codes: set<Code>)
    ensures var t := MaybeSynthesize(s, codes);
            t.Some? ==> Grown(s, t.value) && t.value.status == s.status && t.value.outcome == s.outcome
  {
    GrownSelf(s);
    if PlanRef(s).Some? {
      AddStepGrows(s, Synthesize, SynthesisInput(PlanRef(s).value, VerifyRef(s.steps), ProviderFailures(s.steps),
                                                 codes + PipelineCodes(s.steps, s.order)));
    }
  }

  lemma MaybeVerifyGrows(s: Run, current: StepKey, codes: set<Code>)
    ensures var t := MaybeVerify(s, current, codes);
            t.Some? ==> Grown(s, t.value) && t.value.status == s.status && t.value.outcome == s.outcome
  {
    GrownSelf(s);
    MaybeSynthesizeGrows(s, codes);
    if PlanRef(s).Some? {
      AddStepGrows(s, Verify, VerifyInput(PlanRef(s).value, ExtractRefs(s, current)));
    }
  }

  lemma OnSuccessGrows(s: Run, k: StepKey, out: Artifact)
    ensures var t := OnSuccess(s, k, out);
            t.Some? ==> Grown(s, t.value) && (k != Synthesize ==> t.value.status == s.status && t.value.outcome == s.outcome)
  {
    hide MaybeSelect, MaybeVerify, MaybeSynthesize, AddDiscoveries, AddFetches;
    GrownSelf(s);
    match k
    case Route => AddStepGrows(s, Plan, out);
    case Plan =>
      if out.Planned? { AddDiscoveriesGrows(s, out, out.queries); }
      MaybeSynthesizeGrows(s, {});
    case Discover(_) => MaybeSelectGrows(s);
    case Select =>
      if out.Selection? { AddFetchesGrows(s, out.selected, 1); }
      MaybeSynthesizeGrows(s, {});
    case Fetch(i, h) => AddStepGrows(s, Extract(i, h), out);
    case Extract(_, _) => MaybeVerifyGrows(s, k, {});
    case Verify => MaybeSynthesizeGrows(s, {});
    case Synthesize =>
  }

  lemma OnFailureGrows(s: Run, k: StepKey, code: nat)
    ensures var t := OnFailure(s, k, code);
            t.Some? ==> Grown(s, t.value) && t.value.outcome == s.outcome
                        && (t.value.status == s.status || (t.value.status == RunFailed && !RunTerminal(s.status)))
  {
    hide MaybeSelect, MaybeVerify, MaybeSynthesize;
    GrownSelf(s);
    MaybeSelectGrows(s);
    MaybeVerifyGrows(s, k, {Reported(code)});
    MaybeSynthesizeGrows(s, {Reported(code)});
  }

  // ---------------------------------------------------------------- costs and events

  lemma {:induction false} TotalCostExt(m: StepMap, m': StepMap, order: seq<StepKey>)
    requires forall k :: k in order ==> k in m && k in m' && StepCost(m'[k]) == StepCost(m[k])
    ensures TotalCost(m, order) == TotalCost(m', order)
  {
    if order != [] {
      TotalCostExt(m, m', order[..|order| - 1]);
    }
  }

  lemma TotalCostLast(m: StepMap, order: seq<StepKey>)
    requires order != []
    ensures var k := order[|order| - 1];
            TotalCost(m, order) == AddUsage(TotalCost(m, order[..|order| - 1]), if k in m then StepCost(m[k]) else NoUsage)
  {
  }

  lemma UsageSwaps(a: Usage, b: Usage, c: Usage)
    ensures AddUsage(AddUsage(a, b), c) == AddUsage(AddUsage(a, c), b)
  {
  }

  /** Changing one row moves the total by the change of that row's cost. */
  lemma {:induction false} TotalCostPut(m: StepMap, order: seq<StepKey>, k: StepKey, st: Step)
    requires forall i, j :: 0 <= i < j < |order| ==> order[i] != order[j]
    requires forall j :: j in order ==> j in m
    requires k in order
    ensures AddUsage(TotalCost(m[k := st], order), StepCost(m[k])) == AddUsage(TotalCost(m, order), StepCost(st))
  {
    hide StepCost, TotalCost, AddUsage;
    var last, rest := order[|order| - 1], order[..|order| - 1];
    TotalCostLast(m, order);
    TotalCostLast(m[k := st], order);
    if last == k {
      TotalCostExt(m, m[k := st], rest);
      UsageSwaps(TotalCost(m, rest), StepCost(st), StepCost(m[k]));
    } else {
      TotalCostPut(m, rest, k, st);
      UsageSwaps(TotalCost(m[k := st], rest), StepCost(m[last]), StepCost(m[k]));
      UsageSwaps(TotalCost(m, rest), StepCost(m[last]), StepCost(st));
    }
  }

  lemma {:induction false} TotalCostGrown(m: StepMap, order: seq<StepKey>, n: nat)
    requires n <= |order|
    requires forall i :: n <= i < |order| ==> order[i] in m && StepCost(m[order[i]]) == NoUsage
    ensures TotalCost(m, order) == TotalCost(m, order[..n])
    decreases |order|
  {
    hide StepCost, TotalCost;
    if n == |order| {
      assert order[..n] == order;
    } else {
      var rest := order[..|order| - 1];
      TotalCostGrown(m, rest, n);
      assert rest[..n] == order[..n];
      TotalCostLast(m, order);
    }
  }

  /** Rows beyond the old ones are new, and have no attempts. */
  lemma NewRows(s: Run, t: Run, i: nat)
    requires Grown(s, t) && Rows(s) && |s.order| <= i < |t.order|
    ensures t.order[i] in t.steps && t.order[i] !in s.steps && t.steps[t.order[i]].attempts == []
  {
    var k := t.order[i];
    assert k in t.order;
    assert k in s.steps ==> k in s.order;
    assert forall j :: 0 <= j < |s.order| ==> t.order[..|s.order|][j] == t.order[j];
  }

  lemma GrownKeepsAccounts(s: Run, t: Run)
    requires Grown(s, t) && Rows(s) && Accounts(s)
    ensures Accounts(t)
  {
    forall i | |s.order| <= i < |t.order| ensures t.order[i] in t.steps && StepCost(t.steps[t.order[i]]) == NoUsage {
      NewRows(s, t, i);
    }
    TotalCostGrown(t.steps, t.order, |s.order|);
    TotalCostExt(s.steps, t.steps, s.order);
  }

  lemma GrownKeepsHistory(c: Config, s: Run, t: Run)
    requires Grown(s, t) && History(c, s)
    ensures History(c, t)
  {
    forall k ensures HistoryOk(c, t, k) {
      assert HistoryOk(c, s, k);
    }
  }

  lemma GrownKeepsBooks(c: Config, s: Run, t: Run)
    requires Grown(s, t) && Rows(s) && Locals(s) && Accounts(s) && History(c, s)
    ensures Rows(t) && Locals(t) && Accounts(t) && History(c, t)
  {
    GrownKeepsAccounts(s, t);
    GrownKeepsHistory(c, s, t);
  }
}
