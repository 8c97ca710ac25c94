/** The step graph: how each completion keeps every barrier and pays every debt.

    `m` is the graph before a step ended, `m1` after that step alone changed status, and the
    completion hook may then add rows. */
module WorkflowGraph {
  import opened Wrappers
  import opened WorkflowModel
  import opened WorkflowInvariant

  /** `k` was unfinished in `m`; in `m1` it has ended, and nothing else changed. */
  predicate JustEnded(m: StepMap, m1: StepMap, k: StepKey) {
    && Pending(m, k)
    && m1.Keys == m.Keys
    && (forall j :: j in m && j != k ==> m1[j].status == m[j].status)
    && Terminal(m1[k].status)
  }

  /** No row starts or stops being finished. */
  predicate SameProgress(m: StepMap, m1: StepMap) {
    && m1.Keys == m.Keys
    && (forall j :: j in m ==> m1[j].status == m[j].status || !(Terminal(m1[j].status) || Terminal(m[j].status)))
  }

  /** A barrier speaks only of finished rows, and finished rows stay. */
  lemma BarrierStays(m: StepMap, m1: StepMap, j: StepKey)
    requires m1.Keys == m.Keys && j in m && Barrier(m, j)
    requires forall i :: i in m && Terminal(m[i].status) ==> m1[i].status == m[i].status
    ensures Barrier(m1, j)
  {
    if HasDiscover(m) {
      var q :| q in m && q.Discover?;
      assert q in m1;
    }
    if HasExtract(m) {
      var e :| e in m && e.Extract? && m[e].status == Succeeded;
      assert e in m1 && m1[e].status == Succeeded;
    }
  }

  lemma EndKeepsGraph(m: StepMap, m1: StepMap, k: StepKey)
    requires Graph(m) && JustEnded(m, m1, k)
    ensures Graph(m1)
  {
    hide Barrier;
    forall j | j in m1 ensures Barrier(m1, j) {
      BarrierStays(m, m1, j);
    }
  }

  lemma SameProgressKeepsGraph(m: StepMap, m1: StepMap)
    requires Graph(m) && SameProgress(m, m1)
    ensures Graph(m1)
    ensures Live(m) ==> Live(m1)
  {
    hide Barrier, Live;
    forall j | j in m1 ensures Barrier(m1, j) {
      BarrierStays(m, m1, j);
    }
    if Live(m) {
      SameProgressKeepsLive(m, m1);
    }
  }

  lemma SameProgressKeepsLive(m: StepMap, m1: StepMap)
    requires Route in m && Live(m) && SameProgress(m, m1)
    ensures Live(m1)
  {
    assert HasDiscover(m1) ==> HasDiscover(m);
    assert DiscoverDone(m1) ==> DiscoverDone(m);
    assert FetchExtractDone(m1) ==> FetchExtractDone(m);
    if HasDiscover(m) {
      var q :| q in m && q.Discover?;
      assert q in m1;
    }
    if HasFetch(m) {
      var f :| f in m && f.Fetch?;
      assert f in m1;
    }
    if HasFetch(m1) {
      var f :| f in m1 && f.Fetch?;
      assert f in m;
    }
  }

  // ---------------------------------------------------------------- order of the phases

  /** While a step is unfinished, no step of a later phase exists (FAST's early verify aside). */
  lemma PhaseOrder(m: StepMap, k: StepKey)
    requires Graph(m) && Pending(m, k)
    ensures k != Synthesize ==> Synthesize !in m
    ensures k == Route ==> Plan !in m
    ensures k.Route? || k.Plan? ==> !HasDiscover(m)
    ensures k.Route? || k.Plan? || k.Discover? ==> Select !in m
    ensures k.Route? || k.Plan? || k.Select? || k.Discover? ==> Verify !in m && (forall j :: j in m ==> !FetchOrExtract(j))
    ensures k.Fetch? ==> Extract(k.index, k.hit) !in m
    ensures k != Route ==> Succ(m, Route)
    ensures k != Route && k != Plan ==> Succ(m, Plan)
    ensures FetchOrExtract(k) || k == Verify ==> Succ(m, Select) && HasFetch(m)
  {
    if Synthesize in m { assert Barrier(m, Synthesize); }
    if Plan in m { assert Barrier(m, Plan); }
    if Select in m { assert Barrier(m, Select); }
    if Verify in m {
      assert Barrier(m, Verify);
      var e :| e in m && e.Extract? && m[e].status == Succeeded;
      assert Barrier(m, e);
    }
    assert Barrier(m, k);
    forall j | j in m && (j.Discover? || FetchOrExtract(j)) ensures Barrier(m, j) {}
  }

  // ---------------------------------------------------------------- the hook, kind by kind

  lemma RouteSucceeded(s: Run, m: StepMap, out: Artifact)
    requires Graph(m) && Live(m) && JustEnded(m, s.steps, Route) && Succ(s.steps, Route)
    ensures var t := AddStep(s, Plan, out); Graph(t.steps) && Live(t.steps)
  {
    PhaseOrder(m, Route);
    EndKeepsGraph(m, s.steps, Route);
    var t := AddStep(s, Plan, out);
    forall j | j in t.steps ensures j.Route? || j.Plan? {
      if j != Plan {
        assert Barrier(s.steps, j);
        assert Plan !in s.steps;
      }
    }
  }

  /** The run stays well formed, and if it is not finished it owes nothing. */
  predicate Healthy(t: Run) {
    Graph(t.steps) && (!RunTerminal(t.status) ==> Live(t.steps))
  }

  lemma PlanSucceeded(s: Run, m: StepMap, out: Artifact)
    requires Graph(m) && Live(m) && JustEnded(m, s.steps, Plan) && Succ(s.steps, Plan)
    requires out.Planned? && out.queries != []
    ensures Healthy(AddDiscoveries(s, out, out.queries))
  {
    PhaseOrder(m, Plan);
    EndKeepsGraph(m, s.steps, Plan);
    AddDiscoveriesGrows(s, out, out.queries);
    var t := AddDiscoveries(s, out, out.queries);
    var q := Discover(out.queries[0]);
    assert q.query in out.queries;
    assert q in t.steps && q !in s.steps && !Terminal(t.steps[q].status);
    assert Select !in t.steps && Verify !in t.steps && Synthesize !in t.steps;
    forall j | j in t.steps ensures Barrier(t.steps, j) {
      if j in s.steps { assert Barrier(s.steps, j); }
    }
  }

  /** `t` has one more, unfinished row. */
  predicate OneMore(m: StepMap, t: StepMap, e: StepKey) {
    && e !in m
    && t.Keys == m.Keys + {e}
    && (forall j :: j in m ==> t[j].status == m[j].status)
    && !Terminal(t[e].status)
  }

  lemma OneMoreKeepsBarrier(m: StepMap, t: StepMap, e: StepKey, j: StepKey)
    requires OneMore(m, t, e) && !e.Discover? && Synthesize !in m
    requires j in m && Barrier(m, j)
    ensures Barrier(t, j)
  {
    if HasDiscover(m) {
      var q :| q in m && q.Discover?;
      assert q in t;
    }
    if HasExtract(m) {
      var x :| x in m && x.Extract? && m[x].status == Succeeded;
      assert x in t && t[x].status == Succeeded;
    }
  }

  lemma OneMoreJoins(m: StepMap, t: StepMap, e: StepKey)
    requires OneMore(m, t, e) && !e.Discover?
    ensures HasDiscover(t) ==> HasDiscover(m)
    ensures DiscoverDone(t) ==> DiscoverDone(m)
    ensures HasFetch(m) ==> HasFetch(t)
    ensures !e.Fetch? ==> (HasFetch(t) ==> HasFetch(m))
    ensures FetchExtractDone(t) ==> FetchExtractDone(m)
  {
    if HasFetch(m) {
      var f :| f in m && f.Fetch?;
      assert f in t;
    }
  }

  /** The debts that only the synthesize step can pay are left out. */
  predicate Core(m: StepMap)
    requires Route in m
  {
    && (Terminal(m[Route].status) ==> Succ(m, Route) && Plan in m)
    && (Plan in m && Terminal(m[Plan].status) ==> Succ(m, Plan))
    && (HasDiscover(m) && DiscoverDone(m) ==> Select in m)
    && (forall k :: k in m && k.Fetch? && m[k].status == Succeeded ==> Extract(k.index, k.hit) in m)
  }

  /** Once every other step has ended, adding the synthesize step settles the whole graph. */
  lemma SynthesizeSettles(s: Run, codes: set<Code>)
    requires Locals(s) && Graph(s.steps) && Core(s.steps) && Synthesize !in s.steps
    requires Succ(s.steps, Plan) && OthersDone(s.steps)
    ensures MaybeSynthesize(s, codes).Some? && Healthy(MaybeSynthesize(s, codes).value)
    ensures Synthesize in MaybeSynthesize(s, codes).value.steps
  {
    hide Graph, Live, Core, OthersDone;
    assert PlanRef(s).Some? by { assert StepOk(Plan, s.steps[Plan], s.hard); }
    var t := MaybeSynthesize(s, codes).value;
    assert OneMore(s.steps, t.steps, Synthesize);
    SynthesizeAdded(s.steps, t.steps);
  }

  lemma SynthesizeAdded(m1: StepMap, t: StepMap)
    requires Graph(m1) && Core(m1) && OneMore(m1, t, Synthesize) && Succ(m1, Plan) && OthersDone(m1)
    ensures Graph(t) && Live(t)
  {
    OneMoreJoins(m1, t, Synthesize);
    assert Barrier(t, Synthesize);
    forall j | j in m1 ensures Barrier(t, j) {
      OneMoreKeepsBarrier(m1, t, Synthesize, j);
    }
  }

  lemma NothingPlanned(s: Run, m: StepMap)
    requires Graph(m) && Live(m) && JustEnded(m, s.steps, Plan) && Succ(s.steps, Plan) && Locals(s)
    ensures MaybeSynthesize(s, {}).Some? && Healthy(MaybeSynthesize(s, {}).value)
  {
    PhaseOrder(m, Plan);
    EndKeepsGraph(m, s.steps, Plan);
    forall j | j in m ensures j.Route? || j.Plan? {
      assert Barrier(m, j);
    }
    SynthesizeSettles(s, {});
  }

  /** The last discovery ended and select was added. */
  lemma SelectAdded(m: StepMap, m1: StepMap, t: StepMap, k: StepKey)
    requires Graph(m) && Live(m) && k.Discover? && JustEnded(m, m1, k)
    requires DiscoverDone(m1) && OneMore(m1, t, Select)
    ensures Graph(t) && Live(t)
  {
    PhaseOrder(m, k);
    EndKeepsGraph(m, m1, k);
    assert k in t;
    forall j | j in m1 ensures Barrier(t, j) {
      OneMoreKeepsBarrier(m1, t, Select, j);
    }
    assert Barrier(t, Select);
  }

  /** A discovery ended while another is still open. */
  lemma DiscoveryOpen(m: StepMap, m1: StepMap, k: StepKey)
    requires Graph(m) && Live(m) && k.Discover? && JustEnded(m, m1, k) && !DiscoverDone(m1)
    ensures Live(m1)
  {
    PhaseOrder(m, k);
    assert k in m1;
  }

  lemma DiscoveryEnded(s: Run, m: StepMap, k: StepKey)
    requires Graph(m) && Live(m) && k.Discover? && JustEnded(m, s.steps, k) && Locals(s)
    ensures MaybeSelect(s).Some? && Healthy(MaybeSelect(s).value)
  {
    hide Graph, Live, DiscoverDone, DiscoveryRefs;
    PhaseOrder(m, k);
    EndKeepsGraph(m, s.steps, k);
    assert HasDiscover(s.steps) by { assert k in s.steps; }
    assert PlanRef(s).Some? by { assert StepOk(Plan, s.steps[Plan], s.hard); }
    var t := MaybeSelect(s).value;
    if DiscoverDone(s.steps) {
      assert OneMore(s.steps, t.steps, Select);
      SelectAdded(m, s.steps, t.steps, k);
    } else {
      DiscoveryOpen(m, s.steps, k);
    }
  }

  /** After a successful select, only fetches, extracts, verify and synthesize can be open. */
  lemma FrontDone(m: StepMap)
    requires Graph(m) && Select in m && Terminal(m[Select].status)
    ensures forall j :: j in m && !FetchOrExtract(j) && j != Verify && j != Synthesize ==> Terminal(m[j].status)
  {
    assert Barrier(m, Select);
    assert Barrier(m, Plan);
  }

  lemma SelectFoundNothing(s: Run, m: StepMap, codes: set<Code>)
    requires Graph(m) && Live(m) && JustEnded(m, s.steps, Select) && Locals(s)
    ensures MaybeSynthesize(s, codes).Some? && Healthy(MaybeSynthesize(s, codes).value)
  {
    PhaseOrder(m, Select);
    EndKeepsGraph(m, s.steps, Select);
    FrontDone(s.steps);
    SynthesizeSettles(s, codes);
  }

  lemma SelectSucceeded(s: Run, m: StepMap, selected: seq<Hit>)
    requires Graph(m) && Live(m) && JustEnded(m, s.steps, Select) && Succ(s.steps, Select) && selected != []
    ensures Healthy(AddFetches(s, selected, 1))
  {
    PhaseOrder(m, Select);
    EndKeepsGraph(m, s.steps, Select);
    assert Barrier(m, Select);
    AddFetchesGrows(s, selected, 1);
    var t := AddFetches(s, selected, 1);
    var f := Fetch(1, selected[0].id);
    assert FetchOf(f, selected, 1);
    assert f in t.steps && f !in s.steps && !Terminal(t.steps[f].status);
    var q :| q in m && q.Discover?;
    assert q in t.steps;
    forall j | j in t.steps ensures Barrier(t.steps, j) {
      if j in s.steps { assert Barrier(s.steps, j); }
    }
  }

  lemma FetchSucceeded(s: Run, m: StepMap, k: StepKey, out: Artifact)
    requires Graph(m) && Live(m) && k.Fetch? && JustEnded(m, s.steps, k) && Succ(s.steps, k)
    ensures Healthy(AddStep(s, Extract(k.index, k.hit), out))
  {
    PhaseOrder(m, k);
    EndKeepsGraph(m, s.steps, k);
    var e := Extract(k.index, k.hit);
    var t := AddStep(s, e, out);
    assert OneMore(s.steps, t.steps, e);
    OneMoreJoins(s.steps, t.steps, e);
    assert Barrier(t.steps, e);
    forall j | j in s.steps ensures Barrier(t.steps, j) {
      OneMoreKeepsBarrier(s.steps, t.steps, e, j);
    }
    ExtractAddedIsLive(m, s.steps, t.steps, k);
  }

  lemma ExtractAddedIsLive(m: StepMap, m1: StepMap, t: StepMap, k: StepKey)
    requires Route in m && Live(m) && k.Fetch? && JustEnded(m, m1, k) && Synthesize !in m
    requires OneMore(m1, t, Extract(k.index, k.hit))
    ensures Live(t)
  {
    var e := Extract(k.index, k.hit);
    assert !FetchExtractDone(t) by { assert e in t; }
    OneMoreJoins(m1, t, e);
    assert HasFetch(t) by { assert k in t; }
    assert HasDiscover(t) && DiscoverDone(t) ==> Select in t by {
      if HasDiscover(t) && DiscoverDone(t) {
        var q :| q in m1 && q.Discover?;
        assert q in m;
        assert forall j :: j in m && j.Discover? ==> j in m1 && Terminal(m1[j].status);
      }
    }
    assert HasDiscover(m) ==> HasDiscover(t) by {
      if HasDiscover(m) {
        var q :| q in m && q.Discover?;
        assert q in t;
      }
    }
    forall j | j in t && j.Fetch? && t[j].status == Succeeded ensures Extract(j.index, j.hit) in t {
      if j != k { assert j in m && m[j].status == Succeeded; }
    }
  }

  // ---------------------------------------------------------------- joins over content

  /** `a` is the output of a successful extract step. */
  predicate ExtractOutput(m: StepMap, a: Artifact) {
    exists e :: e in m && e.Extract? && m[e].status == Succeeded && m[e].output == Some(a)
  }

  predicate OtherOutput(m: StepMap, order: seq<StepKey>, current: StepKey, a: Artifact) {
    exists e :: e in order && e.Extract? && e != current && Succ(m, e) && m[e].output == Some(a)
  }

  lemma {:induction false} OtherExtractsAre(m: StepMap, order: seq<StepKey>, current: StepKey, a: Artifact)
    ensures a in OtherExtracts(m, order, current) <==> OtherOutput(m, order, current, a)
  {
    if order != [] {
      var rest := order[..|order| - 1];
      var k := order[|order| - 1];
      OtherExtractsAre(m, rest, current, a);
      if OtherOutput(m, order, current, a) {
        var e :| e in order && e.Extract? && e != current && Succ(m, e) && m[e].output == Some(a);
        assert e == k || e in rest;
      }
      if OtherOutput(m, rest, current, a) {
        var e :| e in rest && e.Extract? && e != current && Succ(m, e) && m[e].output == Some(a);
        assert e in order;
      }
      if k.Extract? && k != current && Succ(m, k) && m[k].output == Some(a) {
        assert k in order;
      }
    }
  }

  /** The references handed to verify are exactly the outputs of the successful extracts. */
  lemma ExtractRefsAre(s: Run, current: StepKey, a: Artifact)
    requires Rows(s)
    ensures a in ExtractRefs(s, current) <==> ExtractOutput(s.steps, a)
  {
    OtherExtractsAre(s.steps, s.order, current, a);
    if OtherOutput(s.steps, s.order, current, a) {
      var e :| e in s.order && e.Extract? && e != current && Succ(s.steps, e) && s.steps[e].output == Some(a);
      assert e in s.steps;
    }
    if ExtractOutput(s.steps, a) {
      var e :| e in s.steps && e.Extract? && s.steps[e].status == Succeeded && s.steps[e].output == Some(a);
      assert e in s.order;
    }
  }

  lemma ContentCore(m: StepMap, m1: StepMap, k: StepKey)
    requires Route in m && Live(m) && FetchOrExtract(k) && JustEnded(m, m1, k)
    requires k.Fetch? ==> m1[k].status != Succeeded
    ensures Core(m1)
    ensures HasFetch(m) ==> HasFetch(m1)
    ensures Plan in m1 && Terminal(m1[Plan].status) ==> HasDiscover(m1) || Synthesize in m1
    ensures Select in m1 && Terminal(m1[Select].status) ==> HasFetch(m1) || Synthesize in m1
  {
    if HasDiscover(m1) {
      var q :| q in m1 && q.Discover?;
      assert q in m;
    }
    if HasDiscover(m) {
      var q :| q in m && q.Discover?;
      assert q in m1;
    }
    if HasFetch(m) {
      var f :| f in m && f.Fetch?;
      assert f in m1;
    }
  }

  lemma ContentDone(s: Run, m: StepMap, k: StepKey, codes: set<Code>)
    requires Graph(m) && Live(m) && FetchOrExtract(k) && JustEnded(m, s.steps, k) && Locals(s)
    requires k.Fetch? ==> s.steps[k].status != Succeeded
    requires FetchExtractDone(s.steps) && (Verify in s.steps ==> Terminal(s.steps[Verify].status))
    ensures MaybeSynthesize(s, codes).Some? && Healthy(MaybeSynthesize(s, codes).value)
  {
    PhaseOrder(m, k);
    EndKeepsGraph(m, s.steps, k);
    ContentCore(m, s.steps, k);
    FrontDone(s.steps);
    SynthesizeSettles(s, codes);
  }

  /** A content step ended, but the join it feeds is not due yet. */
  lemma ContentLive(m: StepMap, m1: StepMap, k: StepKey)
    requires Graph(m) && Live(m) && FetchOrExtract(k) && JustEnded(m, m1, k)
    requires k.Fetch? ==> m1[k].status != Succeeded
    requires !FetchExtractDone(m1) || (Verify in m1 && !Terminal(m1[Verify].status))
    ensures Live(m1)
  {
    PhaseOrder(m, k);
    ContentCore(m, m1, k);
  }

  lemma VerifyAddedLive(m1: StepMap, t: StepMap)
    requires Route in m1 && Core(m1) && OneMore(m1, t, Verify) && Synthesize !in m1
    requires Plan in m1 && Terminal(m1[Plan].status) ==> HasDiscover(m1)
    requires Select in m1 && Terminal(m1[Select].status) ==> HasFetch(m1)
    ensures Live(t)
  {
    OneMoreJoins(m1, t, Verify);
    if HasDiscover(m1) {
      var q :| q in m1 && q.Discover?;
      assert q in t;
    }
    forall j | j in t && j.Fetch? && t[j].status == Succeeded ensures Extract(j.index, j.hit) in t {
      assert j in m1;
    }
  }

  lemma VerifyAdded(s: Run, m: StepMap, k: StepKey, input: Artifact)
    requires Graph(m) && Live(m) && FetchOrExtract(k) && JustEnded(m, s.steps, k)
    requires k.Fetch? ==> s.steps[k].status != Succeeded
    requires Verify !in s.steps && HasExtract(s.steps)
    ensures Healthy(AddStep(s, Verify, input))
  {
    PhaseOrder(m, k);
    EndKeepsGraph(m, s.steps, k);
    ContentCore(m, s.steps, k);
    hide Graph, Live, Core, JustEnded, FetchExtractDone, HasExtract, HasFetch, HasDiscover;
    BesideVerify(s, input);
    var t := AddStep(s, Verify, input);
    VerifyAddedLive(s.steps, t.steps);
    VerifyAddedGraph(s.steps, t.steps);
  }

  lemma BesideVerify(s: Run, input: Artifact)
    requires Verify !in s.steps
    ensures OneMore(s.steps, AddStep(s, Verify, input).steps, Verify)
    ensures AddStep(s, Verify, input).status == s.status
  {
  }

  lemma VerifyAddedGraph(m1: StepMap, t: StepMap)
    requires Graph(m1) && OneMore(m1, t, Verify) && Synthesize !in m1
    requires Succ(m1, Select) && HasExtract(m1)
    ensures Graph(t)
  {
    forall j | j in m1 ensures Barrier(t, j) {
      OneMoreKeepsBarrier(m1, t, Verify, j);
    }
    var x :| x in m1 && x.Extract? && m1[x].status == Succeeded;
    assert x in t && t[x].status == Succeeded;
  }

  /** A fetch that failed, or an extract that ended either way. */
  lemma ContentEnded(s: Run, m: StepMap, k: StepKey, codes: set<Code>)
    requires Graph(m) && Live(m) && FetchOrExtract(k) && JustEnded(m, s.steps, k) && Locals(s) && Rows(s)
    requires k.Fetch? ==> s.steps[k].status != Succeeded
    ensures MaybeVerify(s, k, codes).Some? && Healthy(MaybeVerify(s, k, codes).value)
  {
    hide Graph, Live, Rows, MaybeSynthesize, ExtractRefs, FetchExtractDone;
    PhaseOrder(m, k);
    EndKeepsGraph(m, s.steps, k);
    assert PlanRef(s).Some? by { assert StepOk(Plan, s.steps[Plan], s.hard); }
    var refs := ExtractRefs(s, k);
    var done := FetchExtractDone(s.steps);
    if !done || (Verify in s.steps && !Terminal(s.steps[Verify].status)) {
      ContentLive(m, s.steps, k);
    } else if Verify in s.steps || refs == [] {
      ContentDone(s, m, k, codes);
    }
    if Verify !in s.steps && refs != [] {
      ExtractRefsAre(s, k, refs[0]);
      VerifyAdded(s, m, k, VerifyInput(PlanRef(s).value, refs));
    }
  }

  lemma VerifyEndedLive(m: StepMap, m1: StepMap)
    requires Graph(m) && Live(m) && JustEnded(m, m1, Verify)
    ensures Core(m1)
    ensures !FetchExtractDone(m1) ==> Live(m1)
  {
    PhaseOrder(m, Verify);
    if HasDiscover(m1) {
      var q :| q in m1 && q.Discover?;
      assert q in m;
    }
    if HasDiscover(m) {
      var q :| q in m && q.Discover?;
      assert q in m1;
    }
    var f :| f in m && f.Fetch?;
    assert f in m1;
  }

  lemma VerifyEnded(s: Run, m: StepMap, codes: set<Code>)
    requires Graph(m) && Live(m) && JustEnded(m, s.steps, Verify) && Locals(s)
    ensures MaybeSynthesize(s, codes).Some? && Healthy(MaybeSynthesize(s, codes).value)
  {
    hide Graph, Live, Core;
    PhaseOrder(m, Verify);
    EndKeepsGraph(m, s.steps, Verify);
    FrontDone(s.steps);
    VerifyEndedLive(m, s.steps);
    if OthersDone(s.steps) {
      SynthesizeSettles(s, codes);
    }
  }

  // ---------------------------------------------------------------- the whole hook

  /** After any success the source does not raise, except for an answer whose quality and
      stop reason contradict each other, and the run owes nothing. */
  lemma OnSuccessHealthy(s: Run, m: StepMap, k: StepKey, out: Artifact)
    requires Graph(m) && Live(m) && JustEnded(m, s.steps, k) && Succ(s.steps, k)
    requires Locals(s) && Rows(s) && s.status == RunRunning && Fits(k, out)
    ensures OnSuccess(s, k, out).Some? <==> (k == Synthesize ==> ConsistentAnswer(out.quality, out.reason))
    ensures OnSuccess(s, k, out).Some? ==> Healthy(OnSuccess(s, k, out).value)
  {
    match k
    case Route => RouteSucceeded(s, m, out);
    case Plan => if out.queries == [] { NothingPlanned(s, m); } else { PlanSucceeded(s, m, out); }
    case Discover(_) => DiscoveryEnded(s, m, k);
    case Select => if out.selected == [] { SelectFoundNothing(s, m, {}); } else { SelectSucceeded(s, m, out.selected); }
    case Fetch(_, _) => FetchSucceeded(s, m, k, out);
    case Extract(_, _) => ContentEnded(s, m, k, {});
    case Verify => VerifyEnded(s, m, {});
    case Synthesize => EndKeepsGraph(m, s.steps, k);
  }

  lemma FailRunHealthy(s: Run, m: StepMap, k: StepKey, code: nat)
    requires Graph(m) && JustEnded(m, s.steps, k) && !RunTerminal(s.status) && (k.Route? || k.Plan? || k.Synthesize?)
    ensures OnFailure(s, k, code).Some? && Healthy(OnFailure(s, k, code).value)
  {
    EndKeepsGraph(m, s.steps, k);
  }

  /** After any failure the source does not raise, and the run owes nothing. */
  lemma OnFailureHealthy(s: Run, m: StepMap, k: StepKey, code: nat)
    requires Graph(m) && Live(m) && JustEnded(m, s.steps, k) && !Succ(s.steps, k)
    requires Locals(s) && Rows(s) && !RunTerminal(s.status)
    ensures OnFailure(s, k, code).Some? && Healthy(OnFailure(s, k, code).value)
  {
    hide Graph, Live, Rows, Locals, MaybeSelect, MaybeVerify, MaybeSynthesize, Healthy;
    match k
    case Route => FailRunHealthy(s, m, k, code);
    case Plan => FailRunHealthy(s, m, k, code);
    case Synthesize => FailRunHealthy(s, m, k, code);
    case Discover(_) => DiscoveryEnded(s, m, k);
    case Select => SelectFoundNothing(s, m, {Reported(code)});
    case Fetch(_, _) => ContentEnded(s, m, k, {Reported(code)});
    case Extract(_, _) => ContentEnded(s, m, k, {Reported(code)});
    case Verify => VerifyEnded(s, m, {Reported(code)});
  }
}
