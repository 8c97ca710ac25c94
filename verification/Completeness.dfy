/** Proposals, whether parsed from a model or made by the fallback, and the decision whether an
    answer is complete. */
module Completeness {
  import opened Wrappers
  import opened Evidence
  import opened Coverage
  import opened Answers

  datatype Fact = Fact(id: nat, key: string, required: bool, highValue: bool)

  /** Facts are held by identifier. */
  predicate UniqueFacts(facts: seq<Fact>) {
    forall i, j :: 0 <= i < j < |facts| ==> facts[i].id != facts[j].id
  }

  predicate Blank(s: string) {
    forall c :: c in s ==> c in " \t\n\r"
  }

  /** The assessment of every fact. */
  ghost function CoverageOf(facts: seq<Fact>, tenant: nat, run: nat, es: seq<Verified>): map<nat, Assessment> {
    if facts == [] then map[]
    else
      var f := facts[|facts| - 1];
      CoverageOf(facts[..|facts| - 1], tenant, run, es)[f.id := Assess(tenant, run, f.id, f.highValue, es)]
  }

  lemma {:induction false} CoverageAt(facts: seq<Fact>, k: nat, tenant: nat, run: nat, es: seq<Verified>)
    requires UniqueFacts(facts) && k < |facts|
    ensures var coverage, f := CoverageOf(facts, tenant, run, es), facts[k];
      f.id in coverage && coverage[f.id] == Assess(tenant, run, f.id, f.highValue, es)
  {
    hide Assess;
    if k < |facts| - 1 {
      CoverageAt(facts[..|facts| - 1], k, tenant, run, es);
      assert facts[k].id != facts[|facts| - 1].id;
    }
  }

  /** Every fact has its assessment. */
  lemma CoverageIsExact(facts: seq<Fact>, tenant: nat, run: nat, es: seq<Verified>)
    requires UniqueFacts(facts)
    ensures forall f :: f in facts ==>
      f.id in CoverageOf(facts, tenant, run, es) &&
      CoverageOf(facts, tenant, run, es)[f.id] == Assess(tenant, run, f.id, f.highValue, es)
  {
    hide Assess, CoverageOf;
    forall f | f in facts
      ensures f.id in CoverageOf(facts, tenant, run, es)
      ensures CoverageOf(facts, tenant, run, es)[f.id] == Assess(tenant, run, f.id, f.highValue, es)
    {
      var k :| 0 <= k < |facts| && facts[k] == f;
      CoverageAt(facts, k, tenant, run, es);
    }
  }

  // ---------------------------------------------------------------- proposals that survive

  /** A factual proposal that cites, without repetition, only evidence accepted for its fact. */
  ghost predicate Faithful(p: Proposal, tenant: nat, run: nat, coverage: map<nat, Assessment>, es: seq<Verified>) {
    && p.kind == Factual && p.fact.Some? && p.ids != [] && Distinct(p.ids)
    && p.fact.value in coverage
    && (exists highValue :: coverage[p.fact.value] == Assess(tenant, run, p.fact.value, highValue, es))
    && forall id :: id in p.ids ==> id in coverage[p.fact.value].ids
  }

  /** Neither the synthesizer nor the validator drops a mapping of a faithful proposal. */
  lemma FaithfulIsKept(n: nat, tenant: nat, run: nat, p: Proposal, coverage: map<nat, Assessment>, es: seq<Verified>)
    requires UniqueIds(es) && Faithful(p, tenant, run, coverage, es)
    ensures !WrongAssessment(tenant, run, p, coverage)
    ensures DraftClaim(n, tenant, run, p, coverage).ids == p.ids
    ensures Ids(ValidEvidence(DraftClaim(n, tenant, run, p, coverage), ById(es))) == p.ids
  {
    var claim, fact := DraftClaim(n, tenant, run, p, coverage), p.fact.value;
    var highValue :| coverage[fact] == Assess(tenant, run, fact, highValue, es);
    DedupeIsExact(p.ids);
    OnlyIsExact(p.ids, coverage[fact].ids);
    assert claim.ids == p.ids;
    ByIdIsExact(es);
    AssessmentMeans(tenant, run, fact, highValue, es);
    hide Assess, Dedupe, Only, ById;
    forall id | id in p.ids ensures ValidFor(claim, id, ById(es)) {
      AssessmentLists(tenant, run, fact, highValue, es, id);
    }
    ValidOnlyIsValid(claim, p.ids, ById(es));
  }

  /** What a faithful proposal becomes: one factual claim with the proposal's own evidence, and no
      complaint other than a changed support. */
  lemma FaithfulOut(
      n: nat, tenant: nat, run: nat, p: Proposal, coverage: map<nat, Assessment>, es: seq<Verified>, policy: Policy)
    requires UniqueIds(es) && Faithful(p, tenant, run, coverage, es)
    ensures var claim := DraftClaim(n, tenant, run, p, coverage);
      && |ClaimOut(claim, ById(es), policy)| == 1
      && SameClaim(ClaimOut(claim, ById(es), policy)[0], p)
      && ClaimOut(claim, ById(es), policy)[0].support == ValidatedSupport(ValidEvidence(claim, ById(es)))
      && forall i :: i in IssuesOf(claim, ById(es), policy) ==> i.SupportRecalculated?
  {
    FaithfulIsKept(n, tenant, run, p, coverage, es);
    var valid := ValidEvidence(DraftClaim(n, tenant, run, p, coverage), ById(es));
    assert |valid| == |Ids(valid)| == |p.ids|;
    hide ValidEvidence, ValidatedSupport, DraftClaim, Prefix;
    DraftKind(n, tenant, run, p, coverage);
  }

  lemma DraftKind(n: nat, tenant: nat, run: nat, p: Proposal, coverage: map<nat, Assessment>)
    ensures var claim := DraftClaim(n, tenant, run, p, coverage);
      claim.kind == p.kind && claim.fact == p.fact && claim.key == p.key && claim.text == p.text && claim.id == n
      && claim.tenant == tenant && claim.run == run
  {
  }

  /** Claim for claim, what leaves the validator is what was proposed. */
  ghost predicate Survives(claims: seq<Claim>, ps: seq<Proposal>) {
    && |claims| == |ps|
    && forall n :: 0 <= n < |ps| ==>
         SameClaim(claims[n], ps[n])
  }

  predicate SameClaim(c: Claim, p: Proposal) {
    c.kind == Factual && c.ids == p.ids && c.fact == p.fact && c.key == p.key && c.text == p.text
  }

  lemma OneMoreSurvives(claims: seq<Claim>, ps: seq<Proposal>, c: Claim, p: Proposal)
    requires Survives(claims, ps) && SameClaim(c, p)
    ensures Survives(claims + [c], ps + [p])
  {
  }

  lemma {:induction false} AllFaithfulOut(
      tenant: nat, run: nat, ps: seq<Proposal>, coverage: map<nat, Assessment>, es: seq<Verified>, policy: Policy, n: nat)
    requires n <= |ps| && UniqueIds(es) && forall p :: p in ps ==> Faithful(p, tenant, run, coverage, es)
    ensures var draft := Drafted(tenant, run, ps, coverage)[..n];
      && Survives(ClaimsOut(draft, ById(es), policy), ps[..n])
      && forall i :: i in IssuesOut(draft, ById(es), policy) ==> i.SupportRecalculated?
  {
    hide ClaimOut, IssuesOf, DraftClaim, Faithful, ValidatedSupport, SameClaim;
    if n > 0 {
      AllFaithfulOut(tenant, run, ps, coverage, es, policy, n - 1);
      var draft, claim := Drafted(tenant, run, ps, coverage), DraftClaim(n - 1, tenant, run, ps[n - 1], coverage);
      FaithfulOut(n - 1, tenant, run, ps[n - 1], coverage, es, policy);
      assert draft[..n] == draft[..n - 1] + [claim];
      OneMoreClaim(tenant, run, draft[..n - 1], claim, ById(es), policy);
      assert ps[..n] == ps[..n - 1] + [ps[n - 1]];
      hide ClaimsOut, IssuesOut, ById;
      OneMoreSurvives(ClaimsOut(draft[..n - 1], ById(es), policy), ps[..n - 1],
        ClaimOut(claim, ById(es), policy)[0], ps[n - 1]);
      assert ClaimOut(claim, ById(es), policy) == [ClaimOut(claim, ById(es), policy)[0]];
    }
  }

  predicate DistinctKeys(ps: seq<Proposal>) {
    forall i, j :: 0 <= i < j < |ps| ==> ps[i].key != ps[j].key
  }

  /** Faithful proposals under distinct keys pass both stages with no mapping dropped. */
  lemma FaithfulPass(
      tenant: nat, run: nat, ps: seq<Proposal>, coverage: map<nat, Assessment>, es: seq<Verified>, policy: Policy)
    requires UniqueIds(es) && DistinctKeys(ps)
    requires forall p :: p in ps ==> Faithful(p, tenant, run, coverage, es)
    ensures forall n :: 0 <= n < |ps| ==> !Refused(tenant, run, ps, coverage, n)
    ensures var r := Validate(tenant, run, Drafted(tenant, run, ps, coverage), ById(es), policy);
      && r.Some? && Survives(r.value.claims, ps)
      && forall i :: i in r.value.issues ==> i.SupportRecalculated?
  {
    hide ClaimsOut, IssuesOut, CitesOut, DraftClaim, Faithful, Survives;
    var draft := Drafted(tenant, run, ps, coverage);
    forall n | 0 <= n < |ps| ensures !Refused(tenant, run, ps, coverage, n) {
      FaithfulIsKept(n, tenant, run, ps[n], coverage, es);
    }
    forall c | c in draft ensures c.tenant == tenant && c.run == run {
      var n :| 0 <= n < |draft| && draft[n] == c;
      DraftKind(n, tenant, run, ps[n], coverage);
    }
    AllFaithfulOut(tenant, run, ps, coverage, es, policy, |ps|);
    assert draft[..|ps|] == draft && ps[..|ps|] == ps;
  }

  // ---------------------------------------------------------------- the parser

  /** One claim of a model's reply, its text stripped of surrounding white space; `known` says that
      it has no field beyond the four. */
  datatype RawClaim = RawClaim(known: bool, key: string, fact: nat, text: string, ids: seq<nat>)

  /** The fact of every accepted piece of evidence. */
  ghost function EvidenceFact(es: seq<Verified>): map<nat, nat> {
    if es == [] then map[]
    else
      var before, e := EvidenceFact(es[..|es| - 1]), es[|es| - 1];
      if e.accepted then before[e.id := e.candidate.fact] else before
  }

  /** `reword` stands for the checks and repairs on the wording, which may refuse a claim. */
  type Rewording = (nat, string, seq<nat>) -> Option<string>

  predicate RawAccepted(raw: RawClaim, facts: seq<Fact>, ef: map<nat, nat>, reword: Rewording) {
    var ids := Dedupe(raw.ids);
    && raw.known && !Blank(raw.key)
    && (exists f :: f in facts && f.id == raw.fact)
    && !Blank(raw.text) && |raw.text| <= 1200
    && ids != [] && (forall id :: id in ids ==> id in ef && ef[id] == raw.fact)
    && reword(raw.fact, raw.text, ids).Some? && !Blank(reword(raw.fact, raw.text, ids).value)
  }

  function Proposed(raw: RawClaim, reword: Rewording): Proposal {
    var ids := Dedupe(raw.ids);
    var text := reword(raw.fact, raw.text, ids);
    Proposal(raw.key, if text.Some? then text.value else raw.text, Some(raw.fact), ids, Factual)
  }

  predicate RepeatsRawKey(raws: seq<RawClaim>, n: nat)
    requires n < |raws|
  {
    exists i :: 0 <= i < n && raws[i].key == raws[n].key
  }

  ghost predicate ReplyAccepted(raws: seq<RawClaim>, facts: seq<Fact>, es: seq<Verified>, reword: Rewording) {
    && |raws| <= |facts| * 2
    && (forall n :: 0 <= n < |raws| ==>
          RawAccepted(raws[n], facts, EvidenceFact(es), reword) && !RepeatsRawKey(raws, n))
    && forall id :: id in EvidenceFact(es) ==> exists n :: 0 <= n < |raws| && raws[n].fact == EvidenceFact(es)[id]
  }

  method FindEvidenceFacts(es: seq<Verified>) returns (ef: map<nat, nat>)
    ensures ef == EvidenceFact(es)
  {
    ef := map[];
    for n := 0 to |es|
      invariant ef == EvidenceFact(es[..n])
    {
      assert es[..n + 1][..n] == es[..n];
      if es[n].accepted {
        ef := ef[es[n].id := es[n].candidate.fact];
      }
    }
    assert es[..|es|] == es;
  }

  /** The parser: all of a reply or nothing. */
  method Parse(raws: seq<RawClaim>, facts: seq<Fact>, es: seq<Verified>, reword: Rewording)
    returns (r: Option<seq<Proposal>>)
    ensures r.Some? <==> ReplyAccepted(raws, facts, es, reword)
    ensures r.Some? ==> |r.value| == |raws| && forall n :: 0 <= n < |raws| ==>
      RawAccepted(raws[n], facts, EvidenceFact(es), reword) && r.value[n] == Proposed(raws[n], reword)
  {
    hide RawAccepted, Proposed;
    var ef := FindEvidenceFacts(es);
    if |raws| > |facts| * 2 {
      return None;
    }
    var parsed: seq<Proposal>, seen: set<string>, claimed: set<nat> := [], {}, {};
    for n := 0 to |raws|
      invariant forall key :: key in seen <==> exists i :: 0 <= i < n && raws[i].key == key
      invariant forall fact :: fact in claimed <==> exists i :: 0 <= i < n && raws[i].fact == fact
      invariant forall i :: 0 <= i < n ==> RawAccepted(raws[i], facts, ef, reword) && !RepeatsRawKey(raws, i)
      invariant |parsed| == n && forall i :: 0 <= i < n ==> parsed[i] == Proposed(raws[i], reword)
    {
      if raws[n].key in seen || !RawAccepted(raws[n], facts, ef, reword) {
        assert RepeatsRawKey(raws, n) || !RawAccepted(raws[n], facts, ef, reword);
        return None;
      }
      parsed := parsed + [Proposed(raws[n], reword)];
      seen, claimed := seen + {raws[n].key}, claimed + {raws[n].fact};
    }
    if exists id :: id in ef && ef[id] !in claimed {
      return None;
    }
    r := Some(parsed);
  }

  lemma {:induction false} EvidenceFactIsExact(es: seq<Verified>)
    ensures forall id :: id in EvidenceFact(es) ==>
      exists e :: e in es && e.id == id && e.accepted && e.candidate.fact == EvidenceFact(es)[id]
    ensures forall e :: e in es && e.accepted ==> e.id in EvidenceFact(es)
  {
    if es != [] {
      var init, last := es[..|es| - 1], es[|es| - 1];
      EvidenceFactIsExact(init);
      assert es == init + [last];
      assert last in es;
    }
  }

  predicate OfRun(es: seq<Verified>, tenant: nat, run: nat) {
    forall e :: e in es ==> e.candidate.tenant == tenant && e.candidate.run == run
  }

  lemma EvidenceOfFact(es: seq<Verified>, tenant: nat, run: nat, fact: nat, highValue: bool, id: nat)
    requires UniqueIds(es) && OfRun(es, tenant, run)
    requires id in EvidenceFact(es) && EvidenceFact(es)[id] == fact
    ensures id in Assess(tenant, run, fact, highValue, es).ids
  {
    EvidenceFactIsExact(es);
    AssessmentLists(tenant, run, fact, highValue, es, id);
    hide Assess, EvidenceFact;
    var e :| e in es && e.id == id && e.accepted && e.candidate.fact == fact;
    assert Counts(e, tenant, run, fact);
  }

  /** An accepted claim of a model's reply is faithful. */
  lemma ParsedIsFaithful(
      raw: RawClaim, facts: seq<Fact>, es: seq<Verified>, reword: Rewording, tenant: nat, run: nat)
    requires UniqueFacts(facts) && UniqueIds(es) && OfRun(es, tenant, run)
    requires RawAccepted(raw, facts, EvidenceFact(es), reword)
    ensures Faithful(Proposed(raw, reword), tenant, run, CoverageOf(facts, tenant, run, es), es)
  {
    var coverage, ids := CoverageOf(facts, tenant, run, es), Dedupe(raw.ids);
    var f :| f in facts && f.id == raw.fact;
    CoverageIsExact(facts, tenant, run, es);
    DedupeIsExact(raw.ids);
    hide Assess, CoverageOf, EvidenceFact, Dedupe, Blank, UniqueIds, OfRun, UniqueFacts, Distinct;
    forall id | id in ids ensures id in coverage[raw.fact].ids {
      EvidenceOfFact(es, tenant, run, raw.fact, f.highValue, id);
    }
  }

  /** Over evidence of one run, an accepted reply passes the synthesizer and the validator with no
      mapping dropped, and no fact with accepted evidence goes without a cited claim. */
  lemma AcceptedReplySurvives(
      raws: seq<RawClaim>, facts: seq<Fact>, es: seq<Verified>, reword: Rewording, tenant: nat, run: nat,
      ps: seq<Proposal>, policy: Policy)
    requires UniqueFacts(facts) && UniqueIds(es) && OfRun(es, tenant, run) && ReplyAccepted(raws, facts, es, reword)
    requires |ps| == |raws|
    requires forall n :: 0 <= n < |raws| ==>
      RawAccepted(raws[n], facts, EvidenceFact(es), reword) && ps[n] == Proposed(raws[n], reword)
    ensures var coverage := CoverageOf(facts, tenant, run, es);
      var r := Validate(tenant, run, Drafted(tenant, run, ps, coverage), ById(es), policy);
      && (forall n :: 0 <= n < |ps| ==> !Refused(tenant, run, ps, coverage, n))
      && r.Some? && Survives(r.value.claims, ps)
      && (forall i :: i in r.value.issues ==> i.SupportRecalculated?)
      && forall e :: e in es && e.accepted ==>
           exists c :: c in r.value.claims && c.kind == Factual && c.fact == Some(e.candidate.fact) && c.ids != []
  {
    hide Faithful, CoverageOf, Drafted, Validate, EvidenceFact, RawAccepted;
    var coverage := CoverageOf(facts, tenant, run, es);
    forall p | p in ps ensures Faithful(p, tenant, run, coverage, es) {
      var n :| 0 <= n < |ps| && ps[n] == p;
      ParsedIsFaithful(raws[n], facts, es, reword, tenant, run);
    }
    forall i, j | 0 <= i < j < |ps| ensures ps[i].key != ps[j].key {
      assert !RepeatsRawKey(raws, j);
    }
    FaithfulPass(tenant, run, ps, coverage, es, policy);
    var r := Validate(tenant, run, Drafted(tenant, run, ps, coverage), ById(es), policy);
    EvidenceFactIsExact(es);
    forall e | e in es && e.accepted
      ensures exists c :: c in r.value.claims && c.kind == Factual && c.fact == Some(e.candidate.fact) && c.ids != []
    {
      var x :| x in es && x.id == e.id && x.accepted && x.candidate.fact == EvidenceFact(es)[e.id];
      SameIdSameEvidence(es, e, x);
      var n :| 0 <= n < |raws| && raws[n].fact == e.candidate.fact;
      NonEmptyIds(raws[n], facts, EvidenceFact(es), reword);
      assert r.value.claims[n] in r.value.claims;
    }
  }

  lemma NonEmptyIds(raw: RawClaim, facts: seq<Fact>, ef: map<nat, nat>, reword: Rewording)
    requires RawAccepted(raw, facts, ef, reword)
    ensures Dedupe(raw.ids) != []
  {
  }

  // ---------------------------------------------------------------- the fallback

  function Known(ids: seq<nat>, byId: map<nat, Verified>): seq<nat> {
    if ids == [] then []
    else Known(ids[..|ids| - 1], byId) + if ids[|ids| - 1] in byId then [ids[|ids| - 1]] else []
  }

  /** `wording` stands for the text made from a fact and the quotes of its evidence. */
  type Wording = (nat, seq<nat>) -> string

  function FallbackIds(f: Fact, coverage: map<nat, Assessment>, byId: map<nat, Verified>): seq<nat>
    requires f.id in coverage
  {
    Known(coverage[f.id].supporting, byId)
  }

  function FallbackProposal(f: Fact, coverage: map<nat, Assessment>, byId: map<nat, Verified>, wording: Wording): Proposal
    requires f.id in coverage
  {
    var ids := FallbackIds(f, coverage, byId);
    Proposal(f.key, wording(f.id, ids), Some(f.id), ids, Factual)
  }

  function FallbackProposals(
      facts: seq<Fact>, coverage: map<nat, Assessment>, byId: map<nat, Verified>, wording: Wording): seq<Proposal>
    requires forall f :: f in facts ==> f.id in coverage
  {
    if facts == [] then []
    else
      var f := facts[|facts| - 1];
      FallbackProposals(facts[..|facts| - 1], coverage, byId, wording)
      + if FallbackIds(f, coverage, byId) == [] then [] else [FallbackProposal(f, coverage, byId, wording)]
  }

  predicate WellWorded(ps: seq<Proposal>) {
    forall n :: 0 <= n < |ps| ==> !Blank(ps[n].key) && !Blank(ps[n].text)
  }

  /** A blank key or text is refused, and with it the whole answer. */
  method Fallback(facts: seq<Fact>, coverage: map<nat, Assessment>, byId: map<nat, Verified>, wording: Wording)
    returns (r: Option<seq<Proposal>>)
    requires forall f :: f in facts ==> f.id in coverage
    ensures var ps := FallbackProposals(facts, coverage, byId, wording);
      r == if WellWorded(ps) then Some(ps) else None
  {
    hide Known;
    var ps: seq<Proposal> := [];
    ghost var all := FallbackProposals(facts, coverage, byId, wording);
    for n := 0 to |facts|
      invariant ps == FallbackProposals(facts[..n], coverage, byId, wording) && WellWorded(ps) && ps <= all
    {
      assert facts[..n + 1] == facts[..n] + [facts[n]] && facts[..n + 1][..n] == facts[..n];
      PrefixOfProposals(facts, n + 1, coverage, byId, wording);
      var f := facts[n];
      var ids := FallbackIds(f, coverage, byId);
      if ids == [] {
        continue;
      }
      var p := Proposal(f.key, wording(f.id, ids), Some(f.id), ids, Factual);
      assert all[|ps|] == p;
      if Blank(p.key) || Blank(p.text) {
        return None;
      }
      ps := ps + [p];
    }
    assert facts[..|facts|] == facts;
    r := Some(ps);
  }

  lemma {:induction false} PrefixOfProposals(
      facts: seq<Fact>, n: nat, coverage: map<nat, Assessment>, byId: map<nat, Verified>, wording: Wording)
    requires n <= |facts| && forall f :: f in facts ==> f.id in coverage
    ensures FallbackProposals(facts[..n], coverage, byId, wording) <= FallbackProposals(facts, coverage, byId, wording)
    decreases |facts|
  {
    hide FallbackIds, FallbackProposal;
    if n < |facts| {
      PrefixOfProposals(facts[..|facts| - 1], n, coverage, byId, wording);
      assert facts[..|facts| - 1][..n] == facts[..n];
    } else {
      assert facts[..n] == facts;
    }
  }
}
