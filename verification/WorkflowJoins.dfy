/** What each join hands on: the inputs of select, verify and synthesize at their creation. */
module WorkflowJoins {
  import opened Wrappers
  import opened WorkflowModel
  import opened WorkflowInvariant
  import opened WorkflowGraph
  import opened WorkflowPreservation
  import opened WorkflowSafety

  // ---------------------------------------------------------------- lists without repetition

  predicate NoDuplicates<T(==)>(xs: seq<T>) {
    forall i, j :: 0 <= i < j < |xs| ==> xs[i] != xs[j]
  }

  predicate OtherExtract(m: StepMap, k: StepKey, current: StepKey) {
    k.Extract? && k != current && Succ(m, k) && m[k].output.Some?
  }

  /** The successful extracts other than the current step have pairwise distinct outputs. */
  predicate OthersDistinct(m: StepMap, order: seq<StepKey>, current: StepKey) {
    forall i, j :: 0 <= i < j < |order| && OtherExtract(m, order[i], current) && OtherExtract(m, order[j], current)
      ==> m[order[i]].output != m[order[j]].output
  }

  lemma DistinctSplits(m: StepMap, order: seq<StepKey>, current: StepKey)
    requires order != []
    ensures var rest, k := order[..|order| - 1], order[|order| - 1];
            OthersDistinct(m, order, current) <==>
              OthersDistinct(m, rest, current) &&
              (OtherExtract(m, k, current) ==> !OtherOutput(m, rest, current, m[k].output.value))
  {
    var rest, k := order[..|order| - 1], order[|order| - 1];
    if OtherExtract(m, k, current) {
      var a := m[k].output.value;
      if OtherOutput(m, rest, current, a) {
        var e :| e in rest && e.Extract? && e != current && Succ(m, e) && m[e].output == Some(a);
        var i :| 0 <= i < |rest| && rest[i] == e;
        assert order[i] == e && OtherExtract(m, order[i], current);
      } else {
        forall i | 0 <= i < |rest| && OtherExtract(m, order[i], current) ensures m[order[i]].output != m[k].output {
          assert rest[i] in rest;
        }
      }
    }
  }

  lemma {:induction false} OtherExtractsDistinct(m: StepMap, order: seq<StepKey>, current: StepKey)
    ensures NoDuplicates(OtherExtracts(m, order, current)) <==> OthersDistinct(m, order, current)
  {
    if order != [] {
      hide OthersDistinct, NoDuplicates, OtherOutput;
      var rest, k := order[..|order| - 1], order[|order| - 1];
      var xs := OtherExtracts(m, rest, current);
      OtherExtractsDistinct(m, rest, current);
      DistinctSplits(m, order, current);
      if OtherExtract(m, k, current) {
        var a := m[k].output.value;
        OtherExtractsAre(m, rest, current, a);
        assert OtherExtracts(m, order, current) == xs + [a];
        if a in xs { AppendStale(xs, a); } else { AppendFresh(xs, a); }
      } else {
        assert OtherExtracts(m, order, current) == xs + [];
        assert xs + [] == xs;
      }
    }
  }

  lemma AppendStale<T>(xs: seq<T>, a: T)
    requires a in xs
    ensures !NoDuplicates(xs + [a])
  {
    var x :| 0 <= x < |xs| && xs[x] == a;
    assert (xs + [a])[x] == (xs + [a])[|xs|];
  }

  lemma AppendFresh<T>(xs: seq<T>, a: T)
    requires a !in xs
    ensures NoDuplicates(xs + [a]) <==> NoDuplicates(xs)
  {
    var all := xs + [a];
    assert forall i :: 0 <= i < |xs| ==> all[i] == xs[i];
    if NoDuplicates(all) {
      forall i, j | 0 <= i < j < |xs| ensures xs[i] != xs[j] {
        assert all[i] != all[j];
      }
    }
  }

  /** Only the current step's output is checked against the list; the others must be distinct by
      themselves. */
  lemma VerifyInputDistinctIff(s: Run, current: StepKey)
    ensures NoDuplicates(ExtractRefs(s, current)) <==> OthersDistinct(s.steps, s.order, current)
  {
    OtherExtractsDistinct(s.steps, s.order, current);
    var xs := OtherExtracts(s.steps, s.order, current);
    if ExtractRefs(s, current) != xs {
      AppendFresh(xs, s.steps[current].output.value);
    }
  }

  predicate ExtractSucceeded(m: StepMap, k: StepKey) {
    k.Extract? && Succ(m, k) && m[k].output.Some?
  }

  /** No two successful extracts have the same output. */
  ghost predicate OutputsApart(m: StepMap) {
    forall j, k :: ExtractSucceeded(m, j) && ExtractSucceeded(m, k) && m[j].output == m[k].output ==> j == k
  }

  lemma ApartIsDistinct(s: Run, current: StepKey)
    requires Rows(s) && OutputsApart(s.steps)
    ensures NoDuplicates(ExtractRefs(s, current))
  {
    hide ExtractRefs, NoDuplicates;
    VerifyInputDistinctIff(s, current);
    forall i, j | 0 <= i < j < |s.order| && OtherExtract(s.steps, s.order[i], current)
        && OtherExtract(s.steps, s.order[j], current)
      ensures s.steps[s.order[i]].output != s.steps[s.order[j]].output
    {
      assert ExtractSucceeded(s.steps, s.order[i]) && ExtractSucceeded(s.steps, s.order[j]);
    }
  }

  // ---------------------------------------------------------------- verify

  /** The plan requires some fact, every successful extract so far is of a direct source, and each
      required fact is looked for on the page of one of them. */
  ghost predicate EnoughForFast(s: Run) {
    && s.mode == Fast && Succ(s.steps, Plan)
    && s.steps[Plan].output.Some? && s.steps[Plan].output.value.Planned?
    && var facts := s.steps[Plan].output.value.facts;
       && (exists f :: f in facts && f.required)
       && (forall j :: ExtractSucceeded(s.steps, j) ==>
             s.steps[j].output.value.Extracted? && s.steps[j].output.value.hit.direct)
       && (forall f :: f in facts && f.required ==> LooksFor(s.steps, f.id))
  }

  /** Some successful extract is of a page found for this fact. */
  predicate LooksFor(m: StepMap, f: nat) {
    exists j :: j in m && ExtractSucceeded(m, j) && m[j].output.value.Extracted? && f in m[j].output.value.hit.facts
  }

  lemma {:induction false} CoveredFactsAre(refs: seq<Artifact>, f: nat)
    ensures f in CoveredFacts(refs) <==> exists a :: a in refs && f in HitFacts(a)
  {
    if refs != [] {
      var rest, last := refs[..|refs| - 1], refs[|refs| - 1];
      CoveredFactsAre(rest, f);
      if a :| a in refs && f in HitFacts(a) {
        assert a == last || a in rest;
      }
      if a :| a in rest && f in HitFacts(a) {
        assert a in refs;
      }
      if f in HitFacts(last) {
        assert last in refs;
      }
    }
  }

  lemma CoversIs(s: Run, current: StepKey, f: nat)
    requires Rows(s) && Locals(s)
    ensures f in CoveredFacts(ExtractRefs(s, current)) <==> LooksFor(s.steps, f)
  {
    var refs := ExtractRefs(s, current);
    hide Rows, ExtractRefs;
    CoveredFactsAre(refs, f);
    if a :| a in refs && f in HitFacts(a) {
      ExtractRefsAre(s, current, a);
      var e :| e in s.steps && e.Extract? && s.steps[e].status == Succeeded && s.steps[e].output == Some(a);
      assert StepOk(e, s.steps[e], s.hard);
      assert ExtractSucceeded(s.steps, e);
    }
    if j :| j in s.steps && ExtractSucceeded(s.steps, j) && s.steps[j].output.value.Extracted?
            && f in s.steps[j].output.value.hit.facts {
      ExtractRefsAre(s, current, s.steps[j].output.value);
    }
  }

  lemma AllDirectIs(s: Run, current: StepKey)
    requires Rows(s) && Locals(s)
    ensures (forall a :: a in ExtractRefs(s, current) ==> IsDirect(a)) <==>
            (forall j :: ExtractSucceeded(s.steps, j) ==>
               s.steps[j].output.value.Extracted? && s.steps[j].output.value.hit.direct)
  {
    var refs := ExtractRefs(s, current);
    hide Rows, ExtractRefs;
    if forall a :: a in refs ==> IsDirect(a) {
      forall j | ExtractSucceeded(s.steps, j)
        ensures s.steps[j].output.value.Extracted? && s.steps[j].output.value.hit.direct
      {
        assert StepOk(j, s.steps[j], s.hard);
        ExtractRefsAre(s, current, s.steps[j].output.value);
      }
    } else {
      var a :| a in refs && !IsDirect(a);
      ExtractRefsAre(s, current, a);
      var e :| e in s.steps && e.Extract? && s.steps[e].status == Succeeded && s.steps[e].output == Some(a);
      assert StepOk(e, s.steps[e], s.hard);
      assert ExtractSucceeded(s.steps, e);
    }
  }

  /** The test the join makes on its list of outputs is the one stated on the rows. */
  lemma EarlyVerifyIs(s: Run, current: StepKey)
    requires Rows(s) && Locals(s) && PlanRef(s).Some?
    ensures EarlyVerify(s, PlanRef(s).value, ExtractRefs(s, current)) <==> EnoughForFast(s)
  {
    var plan, refs := PlanRef(s).value, ExtractRefs(s, current);
    assert StepOk(Plan, s.steps[Plan], s.hard);
    AllDirectIs(s, current);
    hide Rows, Locals, ExtractRefs, LooksFor, CoveredFacts;
    forall f ensures f in CoveredFacts(refs) <==> LooksFor(s.steps, f) {
      CoversIs(s, current, f);
    }
    assert forall f :: f in plan.facts && f.required ==> f.id in RequiredFacts(plan);
  }

  /** `at` lists the places of the successful extracts but `current` among the rows, and `refs` their
      outputs. */
  predicate ListsOthers(m: StepMap, order: seq<StepKey>, refs: seq<Artifact>, at: seq<nat>, current: StepKey) {
    && |at| == |refs|
    && (forall i, j :: 0 <= i < j < |at| ==> at[i] < at[j])
    && (forall i :: 0 <= i < |at| ==>
          at[i] < |order| && OtherExtract(m, order[at[i]], current) && m[order[at[i]]].output == Some(refs[i]))
    && (forall p :: 0 <= p < |order| && OtherExtract(m, order[p], current) ==> p in at)
  }

  predicate InPlace(m: StepMap, order: seq<StepKey>, refs: seq<Artifact>, at: seq<nat>, current: StepKey) {
    || ListsOthers(m, order, refs, at, current)
    || (refs != [] && ExtractSucceeded(m, current) && m[current].output == Some(refs[|refs| - 1])
        && ListsOthers(m, order, refs[..|refs| - 1], at, current))
  }

  /** The outputs come in the order of the rows, but for the one of the extract that has just succeeded: it
      comes last. */
  ghost predicate RefsInOrder(m: StepMap, order: seq<StepKey>, refs: seq<Artifact>) {
    exists current, at :: InPlace(m, order, refs, at, current)
  }

  lemma ListsMore(m: StepMap, order: seq<StepKey>, refs: seq<Artifact>, at: seq<nat>, current: StepKey)
    requires order != [] && ListsOthers(m, order[..|order| - 1], refs, at, current)
    ensures var last := order[|order| - 1];
      if OtherExtract(m, last, current)
      then ListsOthers(m, order, refs + [m[last].output.value], at + [|order| - 1], current)
      else ListsOthers(m, order, refs, at, current)
  {
    var rest, n := order[..|order| - 1], |order| - 1;
    var more := at + [n];
    assert forall i :: 0 <= i < |at| ==> rest[at[i]] == order[at[i]];
    forall p | 0 <= p < |order| && OtherExtract(m, order[p], current) ensures p in more && (p < n ==> p in at) {
      if p < n {
        assert rest[p] == order[p] && p in at;
      } else {
        assert more[|at|] == p;
      }
    }
  }

  lemma {:induction false} OtherExtractsInOrder(m: StepMap, order: seq<StepKey>, current: StepKey) returns (at: seq<nat>)
    ensures ListsOthers(m, order, OtherExtracts(m, order, current), at, current)
  {
    at := [];
    if order != [] {
      var rest, last := order[..|order| - 1], order[|order| - 1];
      at := OtherExtractsInOrder(m, rest, current);
      var refs := OtherExtracts(m, rest, current);
      hide ListsOthers;
      ListsMore(m, order, refs, at, current);
      if OtherExtract(m, last, current) {
        at := at + [|rest|];
      } else {
        assert refs + [] == refs;
      }
    }
  }

  lemma ExtractRefsInOrder(s: Run, current: StepKey)
    ensures RefsInOrder(s.steps, s.order, ExtractRefs(s, current))
  {
    var at := OtherExtractsInOrder(s.steps, s.order, current);
    var refs, others := ExtractRefs(s, current), OtherExtracts(s.steps, s.order, current);
    hide ListsOthers, OtherExtracts;
    if refs != others {
      assert refs[..|refs| - 1] == others;
    }
    assert InPlace(s.steps, s.order, refs, at, current);
  }

  lemma OrderUnchanged(s: Run, t: Run, e: StepKey, refs: seq<Artifact>)
    requires RefsInOrder(s.steps, s.order, refs) && !e.Extract? && e !in s.steps
    requires t.order == s.order + [e] && t.steps.Keys == s.steps.Keys + {e}
    requires forall k :: k in s.steps ==> t.steps[k] == s.steps[k]
    ensures RefsInOrder(t.steps, t.order, refs)
  {
    var current, at :| InPlace(s.steps, s.order, refs, at, current);
    var mine := if ListsOthers(s.steps, s.order, refs, at, current) then refs else refs[..|refs| - 1];
    ListedUnchanged(s, t, e, mine, at, current);
    hide ListsOthers;
    assert InPlace(t.steps, t.order, refs, at, current);
  }

  lemma ListedUnchanged(s: Run, t: Run, e: StepKey, refs: seq<Artifact>, at: seq<nat>, current: StepKey)
    requires ListsOthers(s.steps, s.order, refs, at, current) && !e.Extract? && e !in s.steps
    requires t.order == s.order + [e] && t.steps.Keys == s.steps.Keys + {e}
    requires forall k :: k in s.steps ==> t.steps[k] == s.steps[k]
    ensures ListsOthers(t.steps, t.order, refs, at, current)
  {
    forall p | 0 <= p < |t.order| && OtherExtract(t.steps, t.order[p], current) ensures p in at {
      assert p < |s.order| && OtherExtract(s.steps, s.order[p], current);
    }
  }

  /** Everything the creation of the verify step guarantees about the state it creates. */
  ghost predicate VerifyStartsWell(t: Run) {
    && Succ(t.steps, Plan)
    && t.steps[Plan].output.Some?
    && Verify in t.steps
    && t.steps[Verify].input.VerifyInput?
    && t.steps[Verify].input.plan == t.steps[Plan].output.value
    && var refs := t.steps[Verify].input.extracts;
       && refs != []
       && (forall a :: a in refs <==> ExtractOutput(t.steps, a))
       && (OutputsApart(t.steps) ==> NoDuplicates(refs))
       && RefsInOrder(t.steps, t.order, refs)
       && (FetchExtractDone(t.steps) || EnoughForFast(t))
  }

  lemma OutputsUnchanged(m: StepMap, t: StepMap, e: StepKey, a: Artifact)
    requires e !in m && !e.Extract? && t.Keys == m.Keys + {e} && (forall k :: k in m ==> t[k] == m[k])
    ensures ExtractOutput(t, a) <==> ExtractOutput(m, a)
  {
    if ExtractOutput(m, a) {
      var x :| x in m && x.Extract? && m[x].status == Succeeded && m[x].output == Some(a);
      assert x in t;
    }
  }

  lemma EnoughUnchanged(s: Run, t: Run, e: StepKey)
    requires e !in s.steps && e != Plan && !e.Extract? && t.mode == s.mode && t.steps.Keys == s.steps.Keys + {e}
    requires forall k :: k in s.steps ==> t.steps[k] == s.steps[k]
    ensures EnoughForFast(t) <==> EnoughForFast(s)
  {
    forall f ensures LooksFor(t.steps, f) <==> LooksFor(s.steps, f) {
      if LooksFor(t.steps, f) {
        var j :| j in t.steps && ExtractSucceeded(t.steps, j) && t.steps[j].output.value.Extracted?
                 && f in t.steps[j].output.value.hit.facts;
        assert ExtractSucceeded(s.steps, j);
      }
      if LooksFor(s.steps, f) {
        var j :| j in s.steps && ExtractSucceeded(s.steps, j) && s.steps[j].output.value.Extracted?
                 && f in s.steps[j].output.value.hit.facts;
        assert ExtractSucceeded(t.steps, j);
      }
    }
    hide LooksFor;
    forall j ensures ExtractSucceeded(s.steps, j) <==> ExtractSucceeded(t.steps, j) {}
  }

  lemma MaybeVerifyAdds(s: Run, current: StepKey, codes: set<Code>)
    requires Rows(s) && Locals(s) && Verify !in s.steps
    ensures var t := MaybeVerify(s, current, codes);
            t.Some? && Verify in t.value.steps ==> VerifyStartsWell(t.value)
  {
    hide MaybeSynthesize, Rows, Locals, ExtractRefs, FetchExtractDone, ExtractOutput, EarlyVerify, EnoughForFast, RefsInOrder;
    var t := MaybeVerify(s, current, codes);
    if t.Some? && Verify in t.value.steps {
      MaybeSynthesizeAddsOnlyItself(s, codes, Verify);
      var refs := ExtractRefs(s, current);
      assert t.value == AddStep(s, Verify, VerifyInput(PlanRef(s).value, refs));
      forall a ensures a in refs <==> ExtractOutput(t.value.steps, a) {
        ExtractRefsAre(s, current, a);
        OutputsUnchanged(s.steps, t.value.steps, Verify, a);
      }
      EarlyVerifyIs(s, current);
      EnoughUnchanged(s, t.value, Verify);
      ExtractRefsInOrder(s, current);
      OrderUnchanged(s, t.value, Verify, refs);
      assert FetchExtractDone(t.value.steps) == FetchExtractDone(s.steps) by { DoneUnchanged(s.steps, t.value.steps, Verify); }
      if OutputsApart(t.value.steps) {
        ApartUnchanged(s.steps, t.value.steps);
        ApartIsDistinct(s, current);
      }
    }
  }

  lemma ApartUnchanged(m: StepMap, t: StepMap)
    requires OutputsApart(t) && forall k :: k in m ==> k in t && t[k] == m[k]
    ensures OutputsApart(m)
  {
    forall j, k | ExtractSucceeded(m, j) && ExtractSucceeded(m, k) && m[j].output == m[k].output ensures j == k {
      assert ExtractSucceeded(t, j) && ExtractSucceeded(t, k);
    }
  }

  lemma DoneUnchanged(m: StepMap, t: StepMap, e: StepKey)
    requires e !in m && !FetchOrExtract(e) && t.Keys == m.Keys + {e} && (forall k :: k in m ==> t[k] == m[k])
    ensures FetchExtractDone(t) == FetchExtractDone(m)
  {
  }

  lemma MaybeSynthesizeAddsOnlyItself(s: Run, codes: set<Code>, k: StepKey)
    requires k != Synthesize && k !in s.steps
    ensures MaybeSynthesize(s, codes).Some? ==> k !in MaybeSynthesize(s, codes).value.steps
  {
  }

  /** The only ways a verify step comes about are the two content joins. */
  lemma HookAddsVerify(s: Run, k: StepKey, out: Artifact, code: nat)
    requires Rows(s) && Locals(s) && Verify !in s.steps
    ensures var t := OnSuccess(s, k, out); t.Some? && Verify in t.value.steps ==> VerifyStartsWell(t.value)
    ensures var t := OnFailure(s, k, code); t.Some? && Verify in t.value.steps ==> VerifyStartsWell(t.value)
  {
    hide MaybeSynthesize, MaybeVerify, VerifyStartsWell, Rows, Locals;
    if out.Planned? { AddDiscoveriesGrows(s, out, out.queries); }
    if out.Selection? { AddFetchesGrows(s, out.selected, 1); }
    MaybeSynthesizeAddsOnlyItself(s, {}, Verify);
    MaybeSynthesizeAddsOnlyItself(s, {Reported(code)}, Verify);
    MaybeVerifyAdds(s, k, {});
    MaybeVerifyAdds(s, k, {Reported(code)});
  }

  /** Whenever a verify step appears, its input lists exactly the outputs of the extracts that
      have succeeded by then. In RESEARCH every fetch and extract has ended by then; in FAST
      either that holds, or every extract so far is direct and together they cover every
      required fact. */
  lemma VerifyInputIsExact(c: Config, s: Run, a: Action)
    requires Inv(c, s) && Verify !in s.steps && Verify in Next(c, s, a).steps
    ensures VerifyStartsWell(Next(c, s, a))
    ensures Next(c, s, a).mode == Research ==> FetchExtractDone(Next(c, s, a).steps)
  {
    hide Claim, Succeed, Fail, Renew, MakeReady, VerifyStartsWell, Inv;
    if a.DoRenew? || a.DoMakeReady? {
      KeysKept(c, s, a);
    }
    match a {
      case DoClaim(k, w, age) => ClaimAddsVerify(c, s, k, w, s.clock - age);
      case DoSucceed(k, no, w, out, cost, age) => SucceedAddsVerify(c, s, k, no, w, out, cost, s.clock - age);
      case DoFail(k, no, w, e, age) => FailAddsVerify(c, s, k, no, w, e, s.clock - age);
      case _ =>
    }
    EarlyOnlyInFast(Next(c, s, a));
  }

  lemma EarlyOnlyInFast(t: Run)
    requires VerifyStartsWell(t)
    ensures t.mode == Research ==> FetchExtractDone(t.steps)
  {
  }

  lemma KeysKept(c: Config, s: Run, a: Action)
    requires a.DoRenew? || a.DoMakeReady?
    ensures Next(c, s, a).steps.Keys == s.steps.Keys
  {
  }

  lemma ClaimAddsVerify(c: Config, s: Run, k: StepKey, w: Worker, now: Time)
    requires Inv(c, s) && Verify !in s.steps && Verify in Claim(c, s, k, w, now).steps
    ensures VerifyStartsWell(Claim(c, s, k, w, now))
  {
    hide Inv, Books, OnFailure, Rows, Locals;
    MissedPhaseBooks(c, s, k);
    HookAddsVerify(MissedPhase(s, k), k, Message(0), PhaseDeadlineExceeded);
  }

  lemma SucceedAddsVerify(c: Config, s: Run, k: StepKey, no: nat, w: Worker, out: Artifact, cost: Charge, now: Time)
    requires Inv(c, s) && Verify !in s.steps && Verify in Succeed(s, k, no, w, out, cost, now).steps
    ensures VerifyStartsWell(Succeed(s, k, no, w, out, cost, now))
  {
    hide Inv, Books, OnSuccess, IsCurrent, Rows, Locals;
    RaisesOnWrongShape(Finish(s, k, no, out, cost, now), k, out);
    FinishKeeps(c, s, k, no, w, out, cost, now);
    HookAddsVerify(Finish(s, k, no, out, cost, now), k, out, 0);
  }

  lemma FailAddsVerify(c: Config, s: Run, k: StepKey, no: nat, w: Worker, e: StepError, now: Time)
    requires Inv(c, s) && Verify !in s.steps && Verify in Fail(c, s, k, no, w, e, now).steps
    ensures VerifyStartsWell(Fail(c, s, k, no, w, e, now))
  {
    hide Inv, Books, OnFailure, MayRetry, Rows, Locals;
    AbandonKeeps(c, s, k, no, w, now);
    FailStepKeeps(c, s, k, no, w, now);
    HookAddsVerify(Abandon(s, k, no, now), k, Message(0), e.code);
    HookAddsVerify(FailStep(s, k, no, now), k, Message(0), e.code);
  }

  // ---------------------------------------------------------------- select

  predicate DiscoveryOutput(m: StepMap, order: seq<StepKey>, a: Artifact) {
    exists k :: k in order && k.Discover? && Succ(m, k) && m[k].output == Some(a)
  }

  /** Select is handed exactly the outputs of the successful discoveries. */
  lemma {:induction false} DiscoveryRefsAre(m: StepMap, order: seq<StepKey>, a: Artifact)
    ensures a in DiscoveryRefs(m, order) <==> DiscoveryOutput(m, order, a)
  {
    if order != [] {
      var rest := order[..|order| - 1];
      var k := order[|order| - 1];
      DiscoveryRefsAre(m, rest, a);
      if DiscoveryOutput(m, order, a) {
        var e :| e in order && e.Discover? && Succ(m, e) && m[e].output == Some(a);
        assert e == k || e in rest;
      }
      if DiscoveryOutput(m, rest, a) {
        var e :| e in rest && e.Discover? && Succ(m, e) && m[e].output == Some(a);
        assert e in order;
      }
      if k.Discover? && Succ(m, k) && m[k].output == Some(a) {
        assert k in order;
      }
    }
  }

  predicate Found(m: StepMap, k: StepKey) {
    k.Discover? && Succ(m, k) && m[k].output.Some?
  }

  /** `at` lists the places of the successful discoveries among the rows, and `ds` their outputs. */
  predicate ListsFound(m: StepMap, order: seq<StepKey>, ds: seq<Artifact>, at: seq<nat>) {
    && |at| == |ds|
    && (forall i, j :: 0 <= i < j < |at| ==> at[i] < at[j])
    && (forall i :: 0 <= i < |at| ==> at[i] < |order| && Found(m, order[at[i]]) && m[order[at[i]]].output == Some(ds[i]))
    && (forall p :: 0 <= p < |order| && Found(m, order[p]) ==> p in at)
  }

  lemma FoundMore(m: StepMap, order: seq<StepKey>, ds: seq<Artifact>, at: seq<nat>)
    requires order != [] && ListsFound(m, order[..|order| - 1], ds, at)
    ensures var last := order[|order| - 1];
      if Found(m, last) then ListsFound(m, order, ds + [m[last].output.value], at + [|order| - 1])
      else ListsFound(m, order, ds, at)
  {
    var rest, n := order[..|order| - 1], |order| - 1;
    var more := at + [n];
    assert forall i :: 0 <= i < |at| ==> rest[at[i]] == order[at[i]];
    forall p | 0 <= p < |order| && Found(m, order[p]) ensures p in more && (p < n ==> p in at) {
      if p < n {
        assert rest[p] == order[p] && p in at;
      } else {
        assert more[|at|] == p;
      }
    }
  }

  lemma {:induction false} DiscoveryRefsInOrder(m: StepMap, order: seq<StepKey>) returns (at: seq<nat>)
    ensures ListsFound(m, order, DiscoveryRefs(m, order), at)
  {
    at := [];
    if order != [] {
      var rest, last := order[..|order| - 1], order[|order| - 1];
      at := DiscoveryRefsInOrder(m, rest);
      var ds := DiscoveryRefs(m, rest);
      hide ListsFound;
      FoundMore(m, order, ds, at);
      if Found(m, last) {
        at := at + [|rest|];
      } else {
        assert ds + [] == ds;
      }
    }
  }

  /** Select, once there, is handed the plan and the outputs of the successful discoveries, each row
      once and in the order of the rows, after every discovery has ended. */
  ghost predicate SelectStartsWell(t: Run) {
    Select in t.steps ==>
      && HasDiscover(t.steps) && DiscoverDone(t.steps) && Succ(t.steps, Plan)
      && t.steps[Select].input.SelectionInput?
      && Some(t.steps[Select].input.plan) == t.steps[Plan].output
      && exists at :: ListsFound(t.steps, t.order, t.steps[Select].input.discoveries, at)
  }

  lemma FoundUnchanged(m: StepMap, t: StepMap, order: seq<StepKey>, ds: seq<Artifact>, at: seq<nat>)
    requires ListsFound(m, order, ds, at) && Select !in m
    requires t.Keys == m.Keys + {Select} && forall k :: k in m ==> t[k] == m[k]
    ensures ListsFound(t, order + [Select], ds, at)
  {
    forall p | 0 <= p < |order + [Select]| && Found(t, (order + [Select])[p]) ensures p in at {
      assert p < |order| && Found(m, order[p]);
    }
  }

  lemma MaybeSelectAdds(s: Run)
    requires Rows(s) && Select !in s.steps
    ensures MaybeSelect(s).Some? ==> SelectStartsWell(MaybeSelect(s).value)
  {
    var t := MaybeSelect(s);
    if t.Some? && Select in t.value.steps {
      hide Rows, DiscoveryRefs, ListsFound;
      var u := t.value;
      var at := DiscoveryRefsInOrder(s.steps, s.order);
      var ds := DiscoveryRefs(s.steps, s.order);
      assert u == AddStep(s, Select, SelectionInput(PlanRef(s).value, ds));
      FoundUnchanged(s.steps, u.steps, s.order, ds, at);
      var q :| q in s.steps && q.Discover?;
      assert q in u.steps;
    }
  }

  lemma HookAddsSelect(s: Run, k: StepKey, out: Artifact, code: nat)
    requires Rows(s) && Select !in s.steps
    ensures OnSuccess(s, k, out).Some? ==> SelectStartsWell(OnSuccess(s, k, out).value)
    ensures OnFailure(s, k, code).Some? ==> SelectStartsWell(OnFailure(s, k, code).value)
  {
    hide MaybeSelect, MaybeSynthesize, MaybeVerify, Rows, HasDiscover, DiscoverDone, ListsFound;
    if out.Planned? { AddDiscoveriesGrows(s, out, out.queries); }
    if out.Selection? { AddFetchesGrows(s, out.selected, 1); }
    MaybeSelectAdds(s);
    OtherJoinsAddNoSelect(s, k, {});
    OtherJoinsAddNoSelect(s, k, {Reported(code)});
  }

  lemma OtherJoinsAddNoSelect(s: Run, current: StepKey, codes: set<Code>)
    requires Select !in s.steps
    ensures MaybeSynthesize(s, codes).Some? ==> Select !in MaybeSynthesize(s, codes).value.steps
    ensures MaybeVerify(s, current, codes).Some? ==> Select !in MaybeVerify(s, current, codes).value.steps
  {
    hide ExtractRefs, PipelineCodes, FetchExtractDone, OthersDone, EarlyVerify;
  }

  /** What select is handed when it appears. */
  lemma SelectInputIsExact(c: Config, s: Run, a: Action)
    requires Inv(c, s) && Select !in s.steps && Select in Next(c, s, a).steps
    ensures SelectStartsWell(Next(c, s, a))
  {
    hide Claim, Succeed, Fail, Renew, MakeReady, SelectStartsWell, Graph, Live, Accounts, History, Locals;
    if a.DoRenew? || a.DoMakeReady? {
      KeysKept(c, s, a);
    }
    match a
    case DoClaim(k, w, age) => ClaimAddsSelect(c, s, k, w, s.clock - age);
    case DoSucceed(k, no, w, out, cost, age) => SucceedAddsSelect(s, k, no, w, out, cost, s.clock - age);
    case DoFail(k, no, w, e, age) => FailAddsSelect(c, s, k, no, w, e, s.clock - age);
    case _ =>
  }

  lemma ClaimAddsSelect(c: Config, s: Run, k: StepKey, w: Worker, now: Time)
    requires Rows(s) && Select !in s.steps && Select in Claim(c, s, k, w, now).steps
    ensures SelectStartsWell(Claim(c, s, k, w, now))
  {
    hide OnFailure, Rows, HasDiscover, DiscoverDone, ListsFound;
    var t := MissedPhase(s, k);
    SameRows(s, t, k);
    HookAddsSelect(t, k, Message(0), PhaseDeadlineExceeded);
  }

  lemma SucceedAddsSelect(s: Run, k: StepKey, no: nat, w: Worker, out: Artifact, cost: Charge, now: Time)
    requires Rows(s) && Select !in s.steps && Select in Succeed(s, k, no, w, out, cost, now).steps
    ensures SelectStartsWell(Succeed(s, k, no, w, out, cost, now))
  {
    hide OnSuccess, IsCurrent, Rows, HasDiscover, DiscoverDone, ListsFound;
    var t := Finish(s, k, no, out, cost, now);
    SameRows(s, t, k);
    HookAddsSelect(t, k, out, 0);
  }

  lemma FailAddsSelect(c: Config, s: Run, k: StepKey, no: nat, w: Worker, e: StepError, now: Time)
    requires Rows(s) && Select !in s.steps && Select in Fail(c, s, k, no, w, e, now).steps
    ensures SelectStartsWell(Fail(c, s, k, no, w, e, now))
  {
    hide OnFailure, MayRetry, Rows, HasDiscover, DiscoverDone, ListsFound;
    SameRows(s, Abandon(s, k, no, now), k);
    SameRows(s, FailStep(s, k, no, now), k);
    HookAddsSelect(Abandon(s, k, no, now), k, Message(0), e.code);
    HookAddsSelect(FailStep(s, k, no, now), k, Message(0), e.code);
  }

  // ---------------------------------------------------------------- synthesize

  lemma {:induction false} PipelineCodesAre(m: StepMap, order: seq<StepKey>, code: Code)
    ensures code in PipelineCodes(m, order) <==> exists k :: k in order && code in EndCodes(m, k)
  {
    if order != [] {
      var rest := order[..|order| - 1];
      var last := order[|order| - 1];
      PipelineCodesAre(m, rest, code);
      if k :| k in order && code in EndCodes(m, k) {
        assert k == last || k in rest;
      }
      if k :| k in rest && code in EndCodes(m, k) {
        assert k in order;
      }
      if code in EndCodes(m, last) {
        assert last in order;
      }
    }
  }

  predicate AllSucceeded(m: StepMap) {
    forall k :: k in m && k != Synthesize ==> m[k].status == Succeeded
  }

  /** Some other step ended without success in this way. */
  predicate EndedSo(m: StepMap, kind: StepKind, cancelled: bool) {
    exists k :: k in m && k != Synthesize && Kind(k) == kind
                && m[k].status == (if cancelled then StepStatus.Cancelled else Failed)
  }

  /** The input of synthesize is told from the other rows: the plan, what verify produced, the
      provider failures select counted, and a code for each way in which a step ended. */
  predicate SynthesisTold(m: StepMap)
    requires Synthesize in m
  {
    && Succ(m, Plan)
    && m[Synthesize].input.SynthesisInput?
    && var input := m[Synthesize].input;
       && Some(input.plan) == m[Plan].output
       && (Verify in m && m[Verify].status == Succeeded ==>
             m[Verify].output.Some? && input.verification == m[Verify].output)
       && (!(Verify in m && m[Verify].status == Succeeded) ==> input.verification == None)
       && (Select in m && m[Select].status == Succeeded ==>
             m[Select].output.Some? && m[Select].output.value.Selection?
             && input.failures == m[Select].output.value.providerFailures)
       && (!(Select in m && m[Select].status == Succeeded) ==> input.failures == 0)
       && (input.codes == {} <==> AllSucceeded(m))
       && (forall kind, cancelled ::
             StepEnded(kind, cancelled) in input.codes <==> EndedSo(m, kind, cancelled))
  }

  /** Everything the creation of the synthesize step guarantees about the state it creates. */
  predicate SynthesisStartsWell(t: Run) {
    OthersDone(t.steps) && Synthesize in t.steps && SynthesisTold(t.steps)
  }

  ghost predicate OnlyReported(codes: set<Code>) {
    forall code :: code in codes ==> code.Reported?
  }

  lemma CodesTellEverything(s: Run, codes: set<Code>)
    requires Rows(s) && Locals(s) && OthersDone(s.steps)
    requires codes != {} ==> !AllSucceeded(s.steps)
    ensures codes + PipelineCodes(s.steps, s.order) == {} <==> AllSucceeded(s.steps)
  {
    forall k | k in s.steps && k != Synthesize
      ensures s.steps[k].status != Succeeded ==> EndCodes(s.steps, k) != {}
      ensures EndCodes(s.steps, k) <= PipelineCodes(s.steps, s.order)
    {
      assert StepOk(k, s.steps[k], s.hard);
      assert k in s.order;
      forall code | code in EndCodes(s.steps, k) ensures code in PipelineCodes(s.steps, s.order) {
        PipelineCodesAre(s.steps, s.order, code);
      }
    }
    if AllSucceeded(s.steps) {
      forall code ensures code !in PipelineCodes(s.steps, s.order) {
        PipelineCodesAre(s.steps, s.order, code);
      }
    }
  }

  lemma EndCodesTold(s: Run, kind: StepKind, cancelled: bool)
    requires Rows(s)
    ensures StepEnded(kind, cancelled) in PipelineCodes(s.steps, s.order) <==> EndedSo(s.steps, kind, cancelled)
  {
    PipelineCodesAre(s.steps, s.order, StepEnded(kind, cancelled));
    if EndedSo(s.steps, kind, cancelled) {
      var k :| k in s.steps && k != Synthesize && Kind(k) == kind
               && s.steps[k].status == (if cancelled then StepStatus.Cancelled else Failed);
      assert k in s.order && StepEnded(kind, cancelled) in EndCodes(s.steps, k);
    }
    if k :| k in s.order && StepEnded(kind, cancelled) in EndCodes(s.steps, k) {
      assert k in s.steps;
    }
  }

  /** Told by rows other than its own, the input stays right when its own row changes or appears. */
  lemma EndedSoUnchanged(m: StepMap, t: StepMap, kind: StepKind, cancelled: bool)
    requires t.Keys == m.Keys + {Synthesize} && forall k :: k in m && k != Synthesize ==> t[k] == m[k]
    ensures EndedSo(t, kind, cancelled) <==> EndedSo(m, kind, cancelled)
  {
    if EndedSo(m, kind, cancelled) {
      var k :| k in m && k != Synthesize && Kind(k) == kind
               && m[k].status == (if cancelled then StepStatus.Cancelled else Failed);
      assert k in t;
    }
  }

  /** The state the join leaves, if it adds the step. */
  predicate SynthesizeAdded(s: Run, u: Run, codes: set<Code>) {
    && OthersDone(s.steps) && PlanRef(s).Some? && u.steps.Keys == s.steps.Keys + {Synthesize}
    && (forall k :: k in s.steps ==> u.steps[k] == s.steps[k])
    && u.steps[Synthesize].input ==
         SynthesisInput(PlanRef(s).value, VerifyRef(s.steps), ProviderFailures(s.steps), codes + PipelineCodes(s.steps, s.order))
  }

  lemma JoinAdds(s: Run, codes: set<Code>)
    requires Synthesize !in s.steps
    ensures var t := MaybeSynthesize(s, codes);
      t.Some? && Synthesize in t.value.steps ==> SynthesizeAdded(s, t.value, codes)
  {
    hide OthersDone, PipelineCodes, PlanRef;
  }

  lemma MaybeSynthesizeAdds(s: Run, codes: set<Code>)
    requires Rows(s) && Locals(s) && Synthesize !in s.steps && OnlyReported(codes)
    requires codes != {} ==> !AllSucceeded(s.steps)
    ensures var t := MaybeSynthesize(s, codes);
            t.Some? && Synthesize in t.value.steps ==> SynthesisStartsWell(t.value) && ReportsOnly(t.value, codes)
  {
    hide MaybeSynthesize, Rows, Locals, PipelineCodes, EndedSo, OnlyReported, AllSucceeded, VerifyRef, ProviderFailures;
    JoinAdds(s, codes);
    var t := MaybeSynthesize(s, codes);
    if t.Some? && Synthesize in t.value.steps {
      CodesAreTold(s, codes, t.value.steps);
      SelectAndVerifyTold(s);
    }
  }

  ghost predicate ReportsOnly(t: Run, codes: set<Code>) {
    && Synthesize in t.steps && t.steps[Synthesize].input.SynthesisInput?
    && forall code: nat :: Reported(code) in t.steps[Synthesize].input.codes <==> Reported(code) in codes
  }

  lemma CodesAreTold(s: Run, codes: set<Code>, m: StepMap)
    requires Rows(s) && Locals(s) && OthersDone(s.steps) && OnlyReported(codes) && Synthesize !in s.steps
    requires codes != {} ==> !AllSucceeded(s.steps)
    requires m.Keys == s.steps.Keys + {Synthesize} && forall k :: k in s.steps ==> m[k] == s.steps[k]
    ensures var all := codes + PipelineCodes(s.steps, s.order);
      && (all == {} <==> AllSucceeded(m))
      && (forall kind, cancelled :: StepEnded(kind, cancelled) in all <==> EndedSo(m, kind, cancelled))
      && (forall code: nat :: Reported(code) in all <==> Reported(code) in codes)
  {
    SucceededUnchanged(s.steps, m);
    hide Rows, Locals, OthersDone, AllSucceeded, EndedSo, PipelineCodes, EndCodes;
    CodesTellEverything(s, codes);
    forall kind, cancelled
      ensures StepEnded(kind, cancelled) in codes + PipelineCodes(s.steps, s.order) <==> EndedSo(m, kind, cancelled)
    {
      EndCodesTold(s, kind, cancelled);
      EndedSoUnchanged(s.steps, m, kind, cancelled);
    }
    forall code: nat ensures Reported(code) !in PipelineCodes(s.steps, s.order) {
      NothingReported(s.steps, s.order, code);
    }
  }

  lemma SucceededUnchanged(m: StepMap, t: StepMap)
    requires t.Keys == m.Keys + {Synthesize} && forall k :: k in m && k != Synthesize ==> t[k] == m[k]
    ensures AllSucceeded(t) <==> AllSucceeded(m)
  {
  }

  lemma NothingReported(m: StepMap, order: seq<StepKey>, code: nat)
    ensures Reported(code) !in PipelineCodes(m, order)
  {
    PipelineCodesAre(m, order, Reported(code));
  }

  lemma SelectAndVerifyTold(s: Run)
    requires Locals(s)
    ensures Verify in s.steps && s.steps[Verify].status == Succeeded ==>
              s.steps[Verify].output.Some? && VerifyRef(s.steps) == s.steps[Verify].output
    ensures !(Verify in s.steps && s.steps[Verify].status == Succeeded) ==> VerifyRef(s.steps) == None
    ensures Select in s.steps && s.steps[Select].status == Succeeded ==>
              s.steps[Select].output.Some? && s.steps[Select].output.value.Selection?
              && ProviderFailures(s.steps) == s.steps[Select].output.value.providerFailures
    ensures !(Select in s.steps && s.steps[Select].status == Succeeded) ==> ProviderFailures(s.steps) == 0
  {
    if Verify in s.steps {
      assert StepOk(Verify, s.steps[Verify], s.hard);
    }
    if Select in s.steps {
      assert StepOk(Select, s.steps[Select], s.hard);
    }
  }

  /** Synthesize, once there, starts well, and was told these codes by the step that just ended. */
  ghost predicate StartsWith(t: Run, told: set<nat>) {
    Synthesize in t.steps ==>
      && SynthesisStartsWell(t)
      && forall code: nat :: Reported(code) in t.steps[Synthesize].input.codes <==> code in told
  }

  lemma SuccessStartsWith(s: Run, k: StepKey, out: Artifact)
    requires Rows(s) && Locals(s) && Synthesize !in s.steps
    ensures OnSuccess(s, k, out).Some? ==> StartsWith(OnSuccess(s, k, out).value, {})
  {
    hide MaybeSynthesize, SynthesisStartsWell, Rows, Locals;
    if out.Planned? { AddDiscoveriesGrows(s, out, out.queries); }
    if out.Selection? { AddFetchesGrows(s, out.selected, 1); }
    JoinStartsWith(s, {}, {});
  }

  lemma FailureStartsWith(s: Run, k: StepKey, code: nat)
    requires Rows(s) && Locals(s) && Synthesize !in s.steps && k in s.steps
    requires s.steps[k].status.Failed? || s.steps[k].status.Cancelled?
    ensures OnFailure(s, k, code).Some? ==> StartsWith(OnFailure(s, k, code).value, {code})
  {
    hide MaybeSynthesize, SynthesisStartsWell, Rows, Locals;
    JoinStartsWith(s, {Reported(code)}, {code});
  }

  lemma JoinStartsWith(s: Run, codes: set<Code>, told: set<nat>)
    requires Rows(s) && Locals(s) && Synthesize !in s.steps && OnlyReported(codes)
    requires forall code: nat :: Reported(code) in codes <==> code in told
    requires codes != {} ==> !AllSucceeded(s.steps)
    ensures MaybeSynthesize(s, codes).Some? ==> StartsWith(MaybeSynthesize(s, codes).value, told)
  {
    hide MaybeSynthesize, Rows, Locals;
    MaybeSynthesizeAdds(s, codes);
  }

  /** Whenever a synthesize step appears, every other step has ended and its input is told from their
      rows; besides the codes of ended steps it lists the code of the failure that brought it about,
      if one did. */
  lemma SynthesisInputIsExact(c: Config, s: Run, a: Action)
    requires Inv(c, s) && Synthesize !in s.steps && Synthesize in Next(c, s, a).steps
    ensures SynthesisStartsWell(Next(c, s, a))
    ensures forall code: nat :: Reported(code) in Next(c, s, a).steps[Synthesize].input.codes <==>
              (a.DoFail? && code == a.error.code) || (a.DoClaim? && code == PhaseDeadlineExceeded)
  {
    hide Inv, Claim, Succeed, Fail, Renew, MakeReady, SynthesisTold;
    if a.DoRenew? || a.DoMakeReady? {
      KeysKept(c, s, a);
    }
    match a
    case DoClaim(k, w, age) => ClaimAddsSynthesize(c, s, k, w, s.clock - age);
    case DoSucceed(k, no, w, out, cost, age) => SucceedAddsSynthesize(c, s, k, no, w, out, cost, s.clock - age);
    case DoFail(k, no, w, e, age) => FailAddsSynthesize(c, s, k, no, w, e, s.clock - age);
    case _ =>
  }

  lemma ClaimAddsSynthesize(c: Config, s: Run, k: StepKey, w: Worker, now: Time)
    requires Inv(c, s) && Synthesize !in s.steps && Synthesize in Claim(c, s, k, w, now).steps
    ensures StartsWith(Claim(c, s, k, w, now), {PhaseDeadlineExceeded})
  {
    hide Inv, Books, OnFailure, Rows, Locals;
    MissedPhaseBooks(c, s, k);
    FailureStartsWith(MissedPhase(s, k), k, PhaseDeadlineExceeded);
  }

  lemma SucceedAddsSynthesize(c: Config, s: Run, k: StepKey, no: nat, w: Worker, out: Artifact, cost: Charge, now: Time)
    requires Inv(c, s) && Synthesize !in s.steps && Synthesize in Succeed(s, k, no, w, out, cost, now).steps
    ensures StartsWith(Succeed(s, k, no, w, out, cost, now), {})
  {
    hide Inv, Books, OnSuccess, IsCurrent, Rows, Locals;
    RaisesOnWrongShape(Finish(s, k, no, out, cost, now), k, out);
    FinishKeeps(c, s, k, no, w, out, cost, now);
    SuccessStartsWith(Finish(s, k, no, out, cost, now), k, out);
  }

  lemma FailAddsSynthesize(c: Config, s: Run, k: StepKey, no: nat, w: Worker, e: StepError, now: Time)
    requires Inv(c, s) && Synthesize !in s.steps && Synthesize in Fail(c, s, k, no, w, e, now).steps
    ensures StartsWith(Fail(c, s, k, no, w, e, now), {e.code})
  {
    hide Inv, Books, OnFailure, MayRetry, Rows, Locals;
    AbandonKeeps(c, s, k, no, w, now);
    FailStepKeeps(c, s, k, no, w, now);
    FailureStartsWith(Abandon(s, k, no, now), k, e.code);
    FailureStartsWith(FailStep(s, k, no, now), k, e.code);
  }

  lemma SameRows(s: Run, s1: Run, k: StepKey)
    requires Rows(s) && k in s.steps && s1.steps.Keys == s.steps.Keys
    requires s1.order == s.order && s1.unpublished == s.unpublished
    ensures Rows(s1)
  {
  }
}
