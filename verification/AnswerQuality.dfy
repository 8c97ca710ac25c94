/** The deterministic path from verified evidence to an answer, and when that answer is complete. */
module AnswerQuality {
  import opened Wrappers
  import opened Evidence
  import opened Coverage
  import opened Answers
  import opened Completeness

  // ---------------------------------------------------------------- the path

  ghost predicate Draftable(tenant: nat, run: nat, ps: seq<Proposal>, coverage: map<nat, Assessment>) {
    WellWorded(ps) && forall n :: 0 <= n < |ps| ==> !Refused(tenant, run, ps, coverage, n)
  }

  /** The answer made without a model; none if a proposal is blank or a key repeated. */
  ghost function Deterministic(
      tenant: nat, run: nat, facts: seq<Fact>, coverage: map<nat, Assessment>, es: seq<Verified>, wording: Wording):
    Option<Answer>
    requires forall f :: f in facts ==> f.id in coverage
  {
    var ps := FallbackProposals(facts, coverage, ById(es), wording);
    if Draftable(tenant, run, ps, coverage) then
      Validate(tenant, run, Drafted(tenant, run, ps, coverage), ById(es), MarkUnconfirmed)
    else None
  }

  method DeterministicAnswer(
      tenant: nat, run: nat, facts: seq<Fact>, coverage: map<nat, Assessment>, es: seq<Verified>, wording: Wording)
    returns (r: Option<Answer>)
    requires forall f :: f in facts ==> f.id in coverage
    ensures r == Deterministic(tenant, run, facts, coverage, es, wording)
  {
    hide FallbackProposals, ById, Validate, WellWorded, Refused;
    var byId := ById(es);
    var ps := Fallback(facts, coverage, byId, wording);
    if ps.None? {
      return None;
    }
    var draft := Synthesize(tenant, run, ps.value, coverage);
    if draft.Err? {
      return None;
    }
    r := ValidateDraft(tenant, run, draft.value, byId, MarkUnconfirmed);
  }

  /** The facts for which the answer has a factual claim with evidence. */
  function SupportedFacts(claims: seq<Claim>): set<nat> {
    set c | c in claims && c.kind == Factual && c.ids != [] && c.fact.Some? :: c.fact.value
  }

  function Required(facts: seq<Fact>): set<nat> {
    set f | f in facts && f.required :: f.id
  }

  predicate IsComplete(facts: seq<Fact>, coverage: map<nat, Assessment>, claims: seq<Claim>, degraded: bool)
    requires forall f :: f in facts ==> f.id in coverage
  {
    var required := Required(facts);
    && required != {}
    && required <= SupportedFacts(claims)
    && (forall id :: id in required ==> coverage[id].status == Covered || coverage[id].status == VerifiedFact)
    && !degraded
  }

  datatype Outcome = Outcome(answer: Answer, complete: bool, missing: set<nat>)

  ghost predicate OutcomeIs(
      o: Option<Outcome>, tenant: nat, run: nat, facts: seq<Fact>, es: seq<Verified>, degraded: bool, wording: Wording)
    requires UniqueFacts(facts)
  {
    CoverageIsExact(facts, tenant, run, es);
    var coverage := CoverageOf(facts, tenant, run, es);
    var answer := Deterministic(tenant, run, facts, coverage, es, wording);
    o == if answer.None? then None
    else
      var claims := answer.value.claims;
      Some(Outcome(answer.value, IsComplete(facts, coverage, claims, degraded), Required(facts) - SupportedFacts(claims)))
  }

  /** The synthesis step on the deterministic path. */
  method SynthesizeAnswer(
      tenant: nat, run: nat, facts: seq<Fact>, es: seq<Verified>, degraded: bool, wording: Wording)
    returns (o: Option<Outcome>)
    requires UniqueFacts(facts)
    ensures OutcomeIs(o, tenant, run, facts, es, degraded, wording)
  {
    hide Assess, Deterministic;
    var coverage: map<nat, Assessment> := map[];
    for n := 0 to |facts|
      invariant coverage == CoverageOf(facts[..n], tenant, run, es)
    {
      assert facts[..n + 1][..n] == facts[..n];
      var a := Evaluate(tenant, run, facts[n].id, facts[n].highValue, es);
      coverage := coverage[facts[n].id := a];
    }
    assert facts[..|facts|] == facts;
    CoverageIsExact(facts, tenant, run, es);
    hide CoverageOf;
    var answer := DeterministicAnswer(tenant, run, facts, coverage, es, wording);
    if answer.None? {
      return None;
    }
    var claims := answer.value.claims;
    o := Some(Outcome(answer.value, IsComplete(facts, coverage, claims, degraded), Required(facts) - SupportedFacts(claims)));
  }

  // ---------------------------------------------------------------- what the fallback proposes

  lemma {:induction false} KnownIsAll(ids: seq<nat>, byId: map<nat, Verified>)
    requires forall id :: id in ids ==> id in byId
    ensures Known(ids, byId) == ids
  {
    if ids != [] {
      KnownIsAll(ids[..|ids| - 1], byId);
      assert ids == ids[..|ids| - 1] + [ids[|ids| - 1]];
    }
  }

  lemma IdsAreDistinct(es: seq<Verified>)
    requires UniqueIds(es)
    ensures Distinct(Ids(es))
  {
  }

  lemma SupportingIsDistinct(tenant: nat, run: nat, fact: nat, highValue: bool, es: seq<Verified>)
    ensures Distinct(Assess(tenant, run, fact, highValue, es).supporting)
  {
    var accepted := Accepted(es, tenant, run, fact);
    AcceptedIsExact(es, tenant, run, fact);
    FacingIsExact(accepted, Supports);
    IdsAreDistinct(Facing(accepted, Supports));
    hide Accepted, Facing;
  }

  /** The fallback cites exactly the supporting evidence of a fact, if there is any. */
  lemma FallbackCites(tenant: nat, run: nat, f: Fact, coverage: map<nat, Assessment>, es: seq<Verified>)
    requires UniqueIds(es) && f.id in coverage && coverage[f.id] == Assess(tenant, run, f.id, f.highValue, es)
    ensures FallbackIds(f, coverage, ById(es)) == coverage[f.id].supporting
    ensures FallbackIds(f, coverage, ById(es)) != [] <==> Backed(es, tenant, run, f.id, Supports)
    ensures forall id :: id in coverage[f.id].supporting ==> id in coverage[f.id].ids
  {
    var ids := coverage[f.id].supporting;
    AssessmentMeans(tenant, run, f.id, f.highValue, es);
    ByIdIsExact(es);
    hide Assess, ById, Known, Backed, UniqueIds;
    forall id | id in ids ensures id in ById(es) && id in coverage[f.id].ids {
      AssessmentLists(tenant, run, f.id, f.highValue, es, id);
    }
    KnownIsAll(ids, ById(es));
  }

  lemma FallbackIsFaithful(
      tenant: nat, run: nat, f: Fact, coverage: map<nat, Assessment>, es: seq<Verified>, wording: Wording)
    requires UniqueIds(es) && f.id in coverage && coverage[f.id] == Assess(tenant, run, f.id, f.highValue, es)
    ensures FallbackIds(f, coverage, ById(es)) != [] <==> Backed(es, tenant, run, f.id, Supports)
    ensures FallbackIds(f, coverage, ById(es)) != [] ==>
      Faithful(FallbackProposal(f, coverage, ById(es), wording), tenant, run, coverage, es)
  {
    FallbackCites(tenant, run, f, coverage, es);
    SupportingIsDistinct(tenant, run, f.id, f.highValue, es);
    hide Assess, ById, FallbackIds, Backed, UniqueIds, Distinct;
  }

  /** `p` is what the fallback proposes for some fact of the list. */
  ghost predicate ProposedFor(
      p: Proposal, facts: seq<Fact>, coverage: map<nat, Assessment>, byId: map<nat, Verified>, wording: Wording)
  {
    exists f :: f in facts && f.id in coverage && FallbackIds(f, coverage, byId) != [] &&
      p == FallbackProposal(f, coverage, byId, wording)
  }

  lemma {:induction false} FallbackIsExact(
      facts: seq<Fact>, coverage: map<nat, Assessment>, byId: map<nat, Verified>, wording: Wording)
    requires forall f :: f in facts ==> f.id in coverage
    ensures forall p :: p in FallbackProposals(facts, coverage, byId, wording) ==>
      ProposedFor(p, facts, coverage, byId, wording)
    ensures forall f :: f in facts && FallbackIds(f, coverage, byId) != [] ==>
      FallbackProposal(f, coverage, byId, wording) in FallbackProposals(facts, coverage, byId, wording)
  {
    hide FallbackIds, FallbackProposal;
    if facts != [] {
      var init, last := facts[..|facts| - 1], facts[|facts| - 1];
      FallbackIsExact(init, coverage, byId, wording);
      assert facts == init + [last];
      assert last in facts;
    }
  }

  /** Every proposal of the fallback is faithful. */
  lemma FallbackIsAllFaithful(tenant: nat, run: nat, facts: seq<Fact>, es: seq<Verified>, wording: Wording)
    requires UniqueFacts(facts) && UniqueIds(es)
    requires forall f :: f in facts ==> f.id in CoverageOf(facts, tenant, run, es)
    ensures var coverage := CoverageOf(facts, tenant, run, es);
      forall p :: p in FallbackProposals(facts, coverage, ById(es), wording) ==> Faithful(p, tenant, run, coverage, es)
  {
    var coverage := CoverageOf(facts, tenant, run, es);
    CoverageIsExact(facts, tenant, run, es);
    FallbackIsExact(facts, coverage, ById(es), wording);
    hide CoverageOf, FallbackProposals, Faithful, Assess, FallbackIds, FallbackProposal, ById;
    forall p | p in FallbackProposals(facts, coverage, ById(es), wording)
      ensures Faithful(p, tenant, run, coverage, es)
    {
      var f :| f in facts && f.id in coverage && FallbackIds(f, coverage, ById(es)) != [] &&
        p == FallbackProposal(f, coverage, ById(es), wording);
      FallbackIsFaithful(tenant, run, f, coverage, es, wording);
    }
  }

  /** The deterministic path fails exactly on a blank wording or a repeated key. */
  lemma DeterministicFailsIff(tenant: nat, run: nat, facts: seq<Fact>, es: seq<Verified>, wording: Wording)
    requires UniqueFacts(facts) && UniqueIds(es)
    requires forall f :: f in facts ==> f.id in CoverageOf(facts, tenant, run, es)
    ensures var coverage := CoverageOf(facts, tenant, run, es);
      var ps := FallbackProposals(facts, coverage, ById(es), wording);
      && (Deterministic(tenant, run, facts, coverage, es, wording).Some? <==> WellWorded(ps) && DistinctKeys(ps))
      && (WellWorded(ps) && DistinctKeys(ps) ==>
            Survives(Deterministic(tenant, run, facts, coverage, es, wording).value.claims, ps))
  {
    var coverage := CoverageOf(facts, tenant, run, es);
    var ps := FallbackProposals(facts, coverage, ById(es), wording);
    FallbackIsAllFaithful(tenant, run, facts, es, wording);
    hide CoverageOf, FallbackProposals, Faithful, Validate, Drafted, ById, WellWorded, Survives, Refused;
    if DistinctKeys(ps) {
      FaithfulPass(tenant, run, ps, coverage, es, MarkUnconfirmed);
    } else {
      RepeatIsRefused(tenant, run, ps, coverage);
    }
  }

  lemma RepeatIsRefused(tenant: nat, run: nat, ps: seq<Proposal>, coverage: map<nat, Assessment>)
    requires !DistinctKeys(ps)
    ensures exists n :: 0 <= n < |ps| && Refused(tenant, run, ps, coverage, n)
  {
    var i, j :| 0 <= i < j < |ps| && ps[i].key == ps[j].key;
    assert RepeatsKey(ps, j);
    assert Refused(tenant, run, ps, coverage, j);
  }

  // ---------------------------------------------------------------- when an answer is complete

  /** The supported facts are exactly those with accepted supporting evidence. */
  lemma SupportedIsBacked(
      tenant: nat, run: nat, facts: seq<Fact>, es: seq<Verified>, wording: Wording, claims: seq<Claim>)
    requires UniqueFacts(facts) && UniqueIds(es)
    requires forall f :: f in facts ==> f.id in CoverageOf(facts, tenant, run, es)
    requires Survives(claims, FallbackProposals(facts, CoverageOf(facts, tenant, run, es), ById(es), wording))
    ensures forall f :: f in facts ==> (f.id in SupportedFacts(claims) <==> Backed(es, tenant, run, f.id, Supports))
  {
    var coverage := CoverageOf(facts, tenant, run, es);
    var ps := FallbackProposals(facts, coverage, ById(es), wording);
    CoverageIsExact(facts, tenant, run, es);
    FallbackIsExact(facts, coverage, ById(es), wording);
    hide CoverageOf, FallbackProposals, Assess, ById, Backed, FallbackIds;
    forall f | f in facts ensures f.id in SupportedFacts(claims) <==> Backed(es, tenant, run, f.id, Supports) {
      FallbackIsFaithful(tenant, run, f, coverage, es, wording);
      if FallbackIds(f, coverage, ById(es)) != [] {
        var n :| 0 <= n < |ps| && ps[n] == FallbackProposal(f, coverage, ById(es), wording);
        assert SameClaim(claims[n], ps[n]);
        assert claims[n] in claims;
      }
      if f.id in SupportedFacts(claims) {
        ClaimComesFrom(facts, coverage, ById(es), wording, claims, ps, f);
      }
    }
  }

  /** A claim for a fact comes from the fallback's proposal for that very fact. */
  lemma ClaimComesFrom(
      facts: seq<Fact>, coverage: map<nat, Assessment>, byId: map<nat, Verified>, wording: Wording,
      claims: seq<Claim>, ps: seq<Proposal>, f: Fact)
    requires UniqueFacts(facts) && f in facts && f.id in coverage && Survives(claims, ps)
    requires forall p :: p in ps ==> ProposedFor(p, facts, coverage, byId, wording)
    requires f.id in SupportedFacts(claims)
    ensures FallbackIds(f, coverage, byId) != []
  {
    hide FallbackIds;
    var c :| c in claims && c.kind == Factual && c.ids != [] && c.fact.Some? && c.fact.value == f.id;
    var n :| 0 <= n < |claims| && claims[n] == c;
    assert SameClaim(claims[n], ps[n]) && ps[n] in ps;
    var g :| g in facts && g.id in coverage && FallbackIds(g, coverage, byId) != [] &&
      ps[n] == FallbackProposal(g, coverage, byId, wording);
    SameFact(facts, f, g);
  }

  lemma SameFact(facts: seq<Fact>, f: Fact, g: Fact)
    requires UniqueFacts(facts) && f in facts && g in facts && f.id == g.id
    ensures f == g
  {
    var i :| 0 <= i < |facts| && facts[i] == f;
    var j :| 0 <= j < |facts| && facts[j] == g;
  }

  /** Accepted evidence for the fact, and none against it. */
  predicate Settled(es: seq<Verified>, tenant: nat, run: nat, fact: nat) {
    Backed(es, tenant, run, fact, Supports) && !Backed(es, tenant, run, fact, Contradicts)
  }

  /** The answer is complete if and only if some fact is required, nothing is degraded, and every
      required fact has accepted supporting evidence and no accepted contradicting evidence. */
  lemma CompleteIff(
      o: Option<Outcome>, tenant: nat, run: nat, facts: seq<Fact>, es: seq<Verified>, degraded: bool, wording: Wording)
    requires UniqueFacts(facts) && UniqueIds(es) && OutcomeIs(o, tenant, run, facts, es, degraded, wording) && o.Some?
    ensures o.value.complete <==>
      && (exists f :: f in facts && f.required)
      && !degraded
      && forall f :: f in facts && f.required ==> Settled(es, tenant, run, f.id)
    ensures forall f :: f in facts && f.required ==>
      (f.id in o.value.missing <==> !Backed(es, tenant, run, f.id, Supports))
  {
    var coverage, claims := CoverageOf(facts, tenant, run, es), o.value.answer.claims;
    CoverageIsExact(facts, tenant, run, es);
    DeterministicFailsIff(tenant, run, facts, es, wording);
    SupportedIsBacked(tenant, run, facts, es, wording, claims);
    hide CoverageOf, Deterministic, FallbackProposals, Assess, SupportedFacts, Backed, Survives, WellWorded, ById;
    forall f | f in facts && f.required
      ensures f.id in Required(facts)
      ensures (coverage[f.id].status == Covered || coverage[f.id].status == VerifiedFact) <==>
        (Backed(es, tenant, run, f.id, Supports) != Backed(es, tenant, run, f.id, Contradicts))
    {
      AssessmentMeans(tenant, run, f.id, f.highValue, es);
      FourStatuses(coverage[f.id].status);
    }
  }

  lemma CompleteIsNotDegraded(
      o: Option<Outcome>, tenant: nat, run: nat, facts: seq<Fact>, es: seq<Verified>, degraded: bool, wording: Wording)
    requires UniqueFacts(facts) && OutcomeIs(o, tenant, run, facts, es, degraded, wording) && o.Some?
    ensures o.value.complete ==> !degraded
  {
    hide CoverageOf, Deterministic, SupportedFacts, Required;
  }

  /** In a complete answer over grounded evidence every required fact has a factual claim that is
      cited in full, and every citation quotes its document exactly. */
  lemma CompleteIsCited(
      o: Option<Outcome>, tenant: nat, run: nat, facts: seq<Fact>, es: seq<Verified>, degraded: bool, wording: Wording,
      versions: map<nat, Version>, f: Fact)
    requires UniqueFacts(facts) && UniqueIds(es) && OutcomeIs(o, tenant, run, facts, es, degraded, wording) && o.Some?
    requires o.value.complete && f in facts && f.required
    requires forall e :: e in es ==>
      e.candidate.source.version in versions && Grounded(e.candidate, versions[e.candidate.source.version])
    ensures exists c ::
      c in o.value.answer.claims && c.kind == Factual && c.fact == Some(f.id) && Cited(c, o.value.answer.citations)
    ensures forall c :: c in o.value.answer.citations ==>
      c.version in versions && c.start < c.end <= |versions[c.version].text| &&
      versions[c.version].text[c.start..c.end] == c.quote
  {
    CoverageIsExact(facts, tenant, run, es);
    ByIdIsExact(es);
    var coverage := CoverageOf(facts, tenant, run, es);
    var ps := FallbackProposals(facts, coverage, ById(es), wording);
    var draft, answer := Drafted(tenant, run, ps, coverage), o.value.answer;
    hide CoverageOf, FallbackProposals, Drafted, ClaimsOut, CitesOut, IssuesOut, ById, Draftable, Cited;
    FactualIsCited(tenant, run, draft, ById(es), MarkUnconfirmed);
    assert f.id in SupportedFacts(answer.claims);
    var c :| c in answer.claims && c.kind == Factual && c.ids != [] && c.fact == Some(f.id);
    assert Cited(c, answer.citations);
    forall c | c in answer.citations
      ensures c.version in versions && c.start < c.end <= |versions[c.version].text|
      ensures versions[c.version].text[c.start..c.end] == c.quote
    {
      CitationsAreExact(tenant, run, draft, ById(es), versions, c);
    }
  }

  // ---------------------------------------------------------------- where citing less says more

  /** The evidence of a fact that the fallback cites: its accepted supporting evidence. */
  ghost function Supporting(es: seq<Verified>, tenant: nat, run: nat, fact: nat): seq<Verified> {
    Facing(Accepted(es, tenant, run, fact), Supports)
  }

  lemma SupportingIsCited(claim: Claim, es: seq<Verified>, tenant: nat, run: nat, fact: nat, highValue: bool)
    requires CitesFor(claim, es, tenant, run, fact) && Backed(es, tenant, run, fact, Supports)
    requires claim.ids == Assess(tenant, run, fact, highValue, es).supporting
    ensures CitesWay(claim, es, tenant, run, fact, Supports) && !CitesWay(claim, es, tenant, run, fact, Contradicts)
    ensures forall e :: e in Among(Accepted(es, tenant, run, fact), claim.ids) <==> e in Supporting(es, tenant, run, fact)
  {
    var accepted := Accepted(es, tenant, run, fact);
    AcceptedIsExact(es, tenant, run, fact);
    FacingIsExact(accepted, Supports);
    AmongIsExact(accepted, claim.ids);
    hide Assess, Accepted, Facing, Among, Backed;
    forall e | e in es && Counts(e, tenant, run, fact)
      ensures e.id in claim.ids <==> e.candidate.direction == Supports
    {
      AssessmentLists(tenant, run, fact, highValue, es, e.id);
      if x :| x in es && x.id == e.id && Counts(x, tenant, run, fact) && x.candidate.direction == Supports {
        SameIdSameEvidence(es, e, x);
      }
    }
    BackedIs(es, tenant, run, fact, Supports);
  }

  lemma BackedIs(es: seq<Verified>, tenant: nat, run: nat, fact: nat, d: Direction)
    requires Backed(es, tenant, run, fact, d)
    ensures exists e :: e in es && Counts(e, tenant, run, fact) && e.candidate.direction == d
  {
  }

  /** On the deterministic path a claim cites one side only, so it never shows a conflict: it is
      confirmed if and only if the supporting side is well sourced, whatever speaks against it. */
  lemma FallbackShowsOneSide(
      tenant: nat, run: nat, facts: seq<Fact>, es: seq<Verified>, wording: Wording, f: Fact, c: Claim)
    requires UniqueFacts(facts) && UniqueIds(es) && f in facts
    requires forall f :: f in facts ==> f.id in CoverageOf(facts, tenant, run, es)
    requires var r := Deterministic(tenant, run, facts, CoverageOf(facts, tenant, run, es), es, wording);
      r.Some? && c in r.value.claims && c.fact == Some(f.id)
    ensures c.support == if WellSourced(Supporting(es, tenant, run, f.id)) then Confirmed else Sourced
  {
    var coverage := CoverageOf(facts, tenant, run, es);
    var ps := FallbackProposals(facts, coverage, ById(es), wording);
    CoverageIsExact(facts, tenant, run, es);
    FallbackClaimIs(tenant, run, facts, es, wording, f, c);
    FallbackCites(tenant, run, f, coverage, es);
    hide Deterministic, CoverageOf, FallbackProposals, ById, ValidEvidence, ValidatedSupport, Assess, Backed, FallbackIds;
    SupportingIsCited(c, es, tenant, run, f.id, f.highValue);
    SubsetSupportIs(c, es, tenant, run, f.id);
    var part := Among(Accepted(es, tenant, run, f.id), c.ids);
    WellSourcedGrows(part, Supporting(es, tenant, run, f.id));
    WellSourcedGrows(Supporting(es, tenant, run, f.id), part);
  }

  /** A claim of the deterministic answer for a fact is the fallback's proposal for it, with the
      support of what it cites. */
  lemma FallbackClaimIs(
      tenant: nat, run: nat, facts: seq<Fact>, es: seq<Verified>, wording: Wording, f: Fact, c: Claim)
    requires UniqueFacts(facts) && UniqueIds(es) && f in facts
    requires forall f :: f in facts ==> f.id in CoverageOf(facts, tenant, run, es)
    requires var r := Deterministic(tenant, run, facts, CoverageOf(facts, tenant, run, es), es, wording);
      r.Some? && c in r.value.claims && c.fact == Some(f.id)
    ensures c.kind == Factual && Stands(c, tenant, run, ById(es))
    ensures c.ids == FallbackIds(f, CoverageOf(facts, tenant, run, es), ById(es)) && c.ids != []
  {
    var coverage := CoverageOf(facts, tenant, run, es);
    var ps := FallbackProposals(facts, coverage, ById(es), wording);
    var draft := Drafted(tenant, run, ps, coverage);
    var claims := Deterministic(tenant, run, facts, coverage, es, wording).value.claims;
    DeterministicFailsIff(tenant, run, facts, es, wording);
    FallbackIsExact(facts, coverage, ById(es), wording);
    assert claims == ClaimsOut(draft, ById(es), MarkUnconfirmed);
    assert forall c :: c in draft ==> c.tenant == tenant && c.run == run;
    hide Deterministic, CoverageOf, FallbackProposals, ById, Drafted, ClaimsOut, FallbackIds, Stands, WellWorded;
    ClaimsStand(tenant, run, draft, ById(es), MarkUnconfirmed);
    var n :| 0 <= n < |claims| && claims[n] == c;
    assert SameClaim(claims[n], ps[n]) && ps[n] in ps;
    var g :| g in facts && g.id in coverage && FallbackIds(g, coverage, ById(es)) != [] &&
      ps[n] == FallbackProposal(g, coverage, ById(es), wording);
    SameFact(facts, f, g);
  }

  /** A fact with an official page for it and any evidence against it: coverage reports the conflict,
      but a claim that cites only the official page is confirmed by the validator. */
  lemma ConflictMayBeCitedAway(
      tenant: nat, run: nat, fact: nat, highValue: bool, official: Verified, other: Verified, claim: Claim)
    requires Counts(official, tenant, run, fact) && Counts(other, tenant, run, fact) && official.id != other.id
    requires official.candidate.source.authority == Official && official.candidate.direction == Supports
    requires other.candidate.direction == Contradicts
    requires claim.tenant == tenant && claim.run == run && claim.fact == Some(fact) && claim.ids == [official.id]
    ensures var es := [official, other];
      && Assess(tenant, run, fact, highValue, es).status == Partial
      && Assess(tenant, run, fact, highValue, es).supporting == claim.ids
      && ValidatedSupport(ValidEvidence(claim, ById(es))) == Confirmed
  {
    var es := [official, other];
    assert UniqueIds(es) && official in es && other in es;
    assert CitesWay(claim, es, tenant, run, fact, Supports);
    AssessmentMeans(tenant, run, fact, highValue, es);
    SubsetSupportIs(claim, es, tenant, run, fact);
    AcceptedIsExact(es, tenant, run, fact);
    AmongIsExact(Accepted(es, tenant, run, fact), claim.ids);
    OnlyOneSupports(tenant, run, fact, highValue, official, other);
    hide Assess, Accepted, Among, ValidEvidence, ValidatedSupport, ById;
    var part := Among(Accepted(es, tenant, run, fact), claim.ids);
    var i :| 0 <= i < |part| && part[i] == official;
    assert HasOfficial(part);
  }

  lemma OnlyOneSupports(tenant: nat, run: nat, fact: nat, highValue: bool, a: Verified, b: Verified)
    requires Counts(a, tenant, run, fact) && Counts(b, tenant, run, fact) && a.id != b.id
    requires a.candidate.direction == Supports && b.candidate.direction == Contradicts
    ensures Assess(tenant, run, fact, highValue, [a, b]).supporting == [a.id]
  {
    assert [a, b][..1] == [a] && [a][..0] == [];
    assert Accepted([a], tenant, run, fact) == [a];
    assert Accepted([a, b], tenant, run, fact) == [a, b];
    assert Facing([a], Supports) == [a] && Facing([a], Contradicts) == [];
    assert Facing([a, b], Supports) == [a] && Facing([a, b], Contradicts) == [b];
  }
}
