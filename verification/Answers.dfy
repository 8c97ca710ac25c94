/** From proposed claims to a validated answer: the synthesizer constrains the proposals by
    coverage, and the validator recomputes support from the cited evidence itself. */
module Answers {
  import opened Wrappers
  import opened Evidence
  import opened Coverage

  datatype Kind = Factual | Uncertainty | Commentary

  datatype Support = Unsupported | Sourced | Confirmed | Conflicted | Unconfirmed

  datatype Policy = Drop | Weaken | MarkUnconfirmed

  datatype Proposal = Proposal(key: string, text: string, fact: Option<nat>, ids: seq<nat>, kind: Kind)

  datatype Claim = Claim(
    id: nat, tenant: nat, run: nat, key: string, text: string, fact: Option<nat>, kind: Kind,
    support: Support, ids: seq<nat>)

  datatype Citation = Citation(
    id: nat, tenant: nat, run: nat, claim: nat, evidence: nat, version: nat, chunk: nat,
    ordinal: nat, mark: nat, url: string, quote: string, start: nat, end: nat)

  datatype Issue =
    | InvalidMapping(key: string, removed: int)
    | UnsupportedClaim(key: string, policy: Policy)
    | SupportRecalculated(key: string, before: Support, after: Support)

  datatype Answer = Answer(tenant: nat, run: nat, claims: seq<Claim>, citations: seq<Citation>, issues: seq<Issue>)

  // ---------------------------------------------------------------- lists of identifiers

  /** The identifiers without repetition, each at its first place. */
  function Dedupe(ids: seq<nat>): seq<nat> {
    if ids == [] then []
    else
      var before, id := Dedupe(ids[..|ids| - 1]), ids[|ids| - 1];
      if id in before then before else before + [id]
  }

  predicate Distinct(ids: seq<nat>) {
    forall i, j :: 0 <= i < j < |ids| ==> ids[i] != ids[j]
  }

  lemma {:induction false} DedupeIsExact(ids: seq<nat>)
    ensures Distinct(Dedupe(ids))
    ensures forall id :: id in Dedupe(ids) <==> id in ids
    ensures Distinct(ids) ==> Dedupe(ids) == ids
  {
    if ids != [] {
      var init := ids[..|ids| - 1];
      DedupeIsExact(init);
      assert ids == init + [ids[|ids| - 1]];
      if Distinct(ids) {
        assert ids[|ids| - 1] !in init;
      }
    }
  }

  function Only(ids: seq<nat>, allowed: seq<nat>): seq<nat> {
    if ids == [] then []
    else Only(ids[..|ids| - 1], allowed) + if ids[|ids| - 1] in allowed then [ids[|ids| - 1]] else []
  }

  lemma {:induction false} OnlyMembers(ids: seq<nat>, allowed: seq<nat>)
    ensures forall id :: id in Only(ids, allowed) <==> id in ids && id in allowed
  {
    if ids != [] {
      OnlyMembers(ids[..|ids| - 1], allowed);
      assert ids == ids[..|ids| - 1] + [ids[|ids| - 1]];
    }
  }

  lemma {:induction false} OnlyIsDistinct(ids: seq<nat>, allowed: seq<nat>)
    requires Distinct(ids)
    ensures Distinct(Only(ids, allowed))
  {
    if ids != [] {
      var init, last := ids[..|ids| - 1], ids[|ids| - 1];
      OnlyIsDistinct(init, allowed);
      OnlyMembers(init, allowed);
      assert last !in Only(init, allowed);
    }
  }

  lemma {:induction false} OnlyKeepsAll(ids: seq<nat>, allowed: seq<nat>)
    requires forall id :: id in ids ==> id in allowed
    ensures Only(ids, allowed) == ids
  {
    if ids != [] {
      OnlyKeepsAll(ids[..|ids| - 1], allowed);
      assert ids == ids[..|ids| - 1] + [ids[|ids| - 1]];
    }
  }

  lemma OnlyIsExact(ids: seq<nat>, allowed: seq<nat>)
    ensures forall id :: id in Only(ids, allowed) <==> id in ids && id in allowed
    ensures Distinct(ids) ==> Distinct(Only(ids, allowed))
    ensures (forall id :: id in ids ==> id in allowed) ==> Only(ids, allowed) == ids
  {
    hide Only, Distinct;
    OnlyMembers(ids, allowed);
    if Distinct(ids) {
      OnlyIsDistinct(ids, allowed);
    }
    if forall id :: id in ids ==> id in allowed {
      OnlyKeepsAll(ids, allowed);
    }
  }

  // ---------------------------------------------------------------- the synthesizer

  datatype SynthesisError = DuplicateKey | WrongRun

  function SupportOf(a: Option<Assessment>, ids: seq<nat>, kind: Kind): Support {
    if kind != Factual || a.None? || ids == [] then Unsupported
    else match a.value.status
      case VerifiedFact => Confirmed
      case Partial => Conflicted
      case Covered => Sourced
      case Open => Unsupported
  }

  function AssessmentFor(p: Proposal, coverage: map<nat, Assessment>): Option<Assessment> {
    if p.fact.Some? && p.fact.value in coverage then Some(coverage[p.fact.value]) else None
  }

  function AllowedIds(p: Proposal, coverage: map<nat, Assessment>): seq<nat> {
    var a := AssessmentFor(p, coverage);
    Only(Dedupe(p.ids), if a.Some? then a.value.ids else [])
  }

  /** The claim drafted from the proposal at place `n`; the place is its identifier. */
  function DraftClaim(n: nat, tenant: nat, run: nat, p: Proposal, coverage: map<nat, Assessment>): Claim {
    var ids := AllowedIds(p, coverage);
    Claim(n, tenant, run, p.key, p.text, p.fact, p.kind, SupportOf(AssessmentFor(p, coverage), ids, p.kind), ids)
  }

  predicate WrongAssessment(tenant: nat, run: nat, p: Proposal, coverage: map<nat, Assessment>) {
    var a := AssessmentFor(p, coverage);
    a.Some? && (a.value.tenant != tenant || a.value.run != run)
  }

  predicate RepeatsKey(ps: seq<Proposal>, n: nat)
    requires n < |ps|
  {
    exists i :: 0 <= i < n && ps[i].key == ps[n].key
  }

  predicate Refused(tenant: nat, run: nat, ps: seq<Proposal>, coverage: map<nat, Assessment>, n: nat)
    requires n < |ps|
  {
    RepeatsKey(ps, n) || WrongAssessment(tenant, run, ps[n], coverage)
  }

  method Synthesize(tenant: nat, run: nat, ps: seq<Proposal>, coverage: map<nat, Assessment>)
    returns (r: Result<seq<Claim>, SynthesisError>)
    ensures r.Ok? <==> forall n :: 0 <= n < |ps| ==> !Refused(tenant, run, ps, coverage, n)
    ensures r.Ok? ==> r.value == Drafted(tenant, run, ps, coverage)
    ensures r.Err? ==> exists n ::
      && 0 <= n < |ps|
      && Refused(tenant, run, ps, coverage, n)
      && (forall i :: 0 <= i < n ==> !Refused(tenant, run, ps, coverage, i))
      && r.error == if RepeatsKey(ps, n) then DuplicateKey else WrongRun
  {
    hide DraftClaim;
    var claims: seq<Claim>, seen: set<string> := [], {};
    for n := 0 to |ps|
      invariant forall key :: key in seen <==> exists i :: 0 <= i < n && ps[i].key == key
      invariant forall i :: 0 <= i < n ==> !Refused(tenant, run, ps, coverage, i)
      invariant claims == Drafted(tenant, run, ps, coverage)[..n]
    {
      if ps[n].key in seen {
        assert Refused(tenant, run, ps, coverage, n);
        return Err(DuplicateKey);
      }
      seen := seen + {ps[n].key};
      if WrongAssessment(tenant, run, ps[n], coverage) {
        assert !RepeatsKey(ps, n) && Refused(tenant, run, ps, coverage, n);
        return Err(WrongRun);
      }
      claims := claims + [DraftClaim(n, tenant, run, ps[n], coverage)];
    }
    r := Ok(claims);
  }

  function Drafted(tenant: nat, run: nat, ps: seq<Proposal>, coverage: map<nat, Assessment>): (cs: seq<Claim>)
    ensures |cs| == |ps| && forall n :: 0 <= n < |ps| ==> cs[n] == DraftClaim(n, tenant, run, ps[n], coverage)
  {
    seq(|ps|, n requires 0 <= n < |ps| => DraftClaim(n, tenant, run, ps[n], coverage))
  }

  // ---------------------------------------------------------------- the validator

  predicate ValidFor(claim: Claim, id: nat, byId: map<nat, Verified>) {
    && id in byId
    && var e := byId[id];
       && e.id == id && e.accepted
       && e.candidate.tenant == claim.tenant && e.candidate.run == claim.run
       && Some(e.candidate.fact) == claim.fact
  }

  function ValidOnly(claim: Claim, ids: seq<nat>, byId: map<nat, Verified>): seq<Verified> {
    if ids == [] then []
    else
      var id := ids[|ids| - 1];
      ValidOnly(claim, ids[..|ids| - 1], byId) + if ValidFor(claim, id, byId) then [byId[id]] else []
  }

  function ValidEvidence(claim: Claim, byId: map<nat, Verified>): seq<Verified> {
    ValidOnly(claim, Dedupe(claim.ids), byId)
  }

  method FindValidEvidence(claim: Claim, byId: map<nat, Verified>) returns (valid: seq<Verified>)
    ensures valid == ValidEvidence(claim, byId)
  {
    var ids := Dedupe(claim.ids);
    valid := [];
    for n := 0 to |ids|
      invariant valid == ValidOnly(claim, ids[..n], byId)
    {
      assert ids[..n + 1][..n] == ids[..n];
      var id := ids[n];
      if id !in byId {
        continue;
      }
      var e := byId[id];
      if e.id != id || !e.accepted {
        continue;
      }
      if e.candidate.tenant != claim.tenant || e.candidate.run != claim.run {
        continue;
      }
      if Some(e.candidate.fact) != claim.fact {
        continue;
      }
      valid := valid + [e];
    }
    assert ids[..|ids|] == ids;
  }

  function ValidatedSupport(es: seq<Verified>): Support {
    var directions := set e | e in es :: e.candidate.direction;
    if directions == {Supports, Contradicts} then Conflicted
    else if exists e :: e in es && e.candidate.source.authority == Official then Confirmed
    else
      var independent := set e | e in es && e.candidate.source.authority == Independent :: e.candidate.source.identity;
      if |independent| >= 2 then Confirmed else Sourced
  }

  function Prefix(policy: Policy): string {
    if policy == MarkUnconfirmed then "\U{5C1A}\U{672A}\U{786E}\U{8BA4}\U{FF1A}"
    else "\U{73B0}\U{6709}\U{6765}\U{6E90}\U{4EC5}\U{63D0}\U{793A}\U{3001}\U{5C1A}\U{4E0D}\U{80FD}\U{786E}\U{8BA4}\U{FF1A}"
  }

  function Unsupportable(claim: Claim, policy: Policy): Option<Claim> {
    if policy == Drop then None
    else Some(claim.(text := Prefix(policy) + claim.text, kind := Uncertainty, support := Unconfirmed, ids := []))
  }

  function Validated(claim: Claim, valid: seq<Verified>): Claim {
    claim.(ids := Ids(valid), support := ValidatedSupport(valid))
  }

  function CitationAt(tenant: nat, run: nat, claim: Claim, valid: seq<Verified>, k: nat, before: nat): Citation
    requires k < |valid|
  {
    var c := valid[k].candidate;
    Citation(before + k, tenant, run, claim.id, valid[k].id, c.source.version, c.source.chunk, k + 1, before + k + 1,
      c.source.url, c.quote, c.start, c.end)
  }

  ghost function ClaimOut(claim: Claim, byId: map<nat, Verified>, policy: Policy): seq<Claim> {
    var valid := ValidEvidence(claim, byId);
    if claim.kind != Factual then [claim]
    else if valid != [] then [Validated(claim, valid)]
    else if Unsupportable(claim, policy).Some? then [Unsupportable(claim, policy).value]
    else []
  }

  ghost function CitesOf(tenant: nat, run: nat, claim: Claim, byId: map<nat, Verified>, before: nat): seq<Citation> {
    var valid := ValidEvidence(claim, byId);
    if claim.kind != Factual then []
    else seq(|valid|, k requires 0 <= k < |valid| => CitationAt(tenant, run, claim, valid, k, before))
  }

  ghost function IssuesOf(claim: Claim, byId: map<nat, Verified>, policy: Policy): seq<Issue> {
    var valid := ValidEvidence(claim, byId);
    if claim.kind != Factual then []
    else
      (if |claim.ids| != |valid| then [InvalidMapping(claim.key, |claim.ids| - |valid|)] else [])
      + (if valid == [] then [UnsupportedClaim(claim.key, policy)]
         else if ValidatedSupport(valid) != claim.support then
           [SupportRecalculated(claim.key, claim.support, ValidatedSupport(valid))]
         else [])
  }

  ghost function ClaimsOut(claims: seq<Claim>, byId: map<nat, Verified>, policy: Policy): seq<Claim> {
    if claims == [] then []
    else ClaimsOut(claims[..|claims| - 1], byId, policy) + ClaimOut(claims[|claims| - 1], byId, policy)
  }

  ghost function CitesOut(tenant: nat, run: nat, claims: seq<Claim>, byId: map<nat, Verified>): seq<Citation> {
    if claims == [] then []
    else
      var before := CitesOut(tenant, run, claims[..|claims| - 1], byId);
      before + CitesOf(tenant, run, claims[|claims| - 1], byId, |before|)
  }

  ghost function IssuesOut(claims: seq<Claim>, byId: map<nat, Verified>, policy: Policy): seq<Issue> {
    if claims == [] then []
    else IssuesOut(claims[..|claims| - 1], byId, policy) + IssuesOf(claims[|claims| - 1], byId, policy)
  }

  ghost function Validate(
      tenant: nat, run: nat, claims: seq<Claim>, byId: map<nat, Verified>, policy: Policy): Option<Answer>
  {
    if forall c :: c in claims ==> c.tenant == tenant && c.run == run then
      Some(Answer(tenant, run, ClaimsOut(claims, byId, policy), CitesOut(tenant, run, claims, byId),
        IssuesOut(claims, byId, policy)))
    else None
  }

  lemma OneMoreClaim(
      tenant: nat, run: nat, claims: seq<Claim>, claim: Claim, byId: map<nat, Verified>, policy: Policy)
    ensures ClaimsOut(claims + [claim], byId, policy) == ClaimsOut(claims, byId, policy) + ClaimOut(claim, byId, policy)
    ensures IssuesOut(claims + [claim], byId, policy) == IssuesOut(claims, byId, policy) + IssuesOf(claim, byId, policy)
    ensures var before := CitesOut(tenant, run, claims, byId);
      CitesOut(tenant, run, claims + [claim], byId) == before + CitesOf(tenant, run, claim, byId, |before|)
  {
    hide ClaimOut, IssuesOf, CitesOf;
    assert (claims + [claim])[..|claims|] == claims;
  }

  /** One step of the validator's loop. */
  method ValidateClaim(
      tenant: nat, run: nat, claim: Claim, byId: map<nat, Verified>, policy: Policy,
      claims: seq<Claim>, citations: seq<Citation>, issues: seq<Issue>, mark: nat)
    returns (claims': seq<Claim>, citations': seq<Citation>, issues': seq<Issue>, mark': nat)
    requires mark == |citations|
    ensures claims' == claims + ClaimOut(claim, byId, policy)
    ensures issues' == issues + IssuesOf(claim, byId, policy)
    ensures citations' == citations + CitesOf(tenant, run, claim, byId, |citations|) && mark' == |citations'|
  {
    hide ValidEvidence, ValidatedSupport, Prefix;
    claims', citations', issues', mark' := claims, citations, issues, mark;
    if claim.kind != Factual {
      claims' := claims' + [claim];
      return;
    }
    var valid := FindValidEvidence(claim, byId);
    if |claim.ids| != |valid| {
      issues' := issues' + [InvalidMapping(claim.key, |claim.ids| - |valid|)];
    }
    if valid == [] {
      issues' := issues' + [UnsupportedClaim(claim.key, policy)];
      var replacement := Unsupportable(claim, policy);
      if replacement.Some? {
        claims' := claims' + [replacement.value];
      }
      return;
    }
    var validated := Validated(claim, valid);
    if validated.support != claim.support {
      issues' := issues' + [SupportRecalculated(claim.key, claim.support, validated.support)];
    }
    claims' := claims' + [validated];
    for k := 0 to |valid|
      invariant mark' == mark + k
      invariant citations' == citations + CitesOf(tenant, run, claim, byId, mark)[..k]
    {
      mark' := mark' + 1;
      var c := valid[k].candidate;
      citations' := citations' + [
        Citation(mark' - 1, tenant, run, claim.id, valid[k].id, c.source.version, c.source.chunk, k + 1, mark',
          c.source.url, c.quote, c.start, c.end)];
    }
  }

  method ValidateDraft(tenant: nat, run: nat, draft: seq<Claim>, byId: map<nat, Verified>, policy: Policy)
    returns (r: Option<Answer>)
    ensures r == Validate(tenant, run, draft, byId, policy)
  {
    hide ClaimOut, IssuesOf, CitesOf;
    var claims: seq<Claim>, citations: seq<Citation>, issues: seq<Issue>, mark := [], [], [], 0;
    for n := 0 to |draft|
      invariant forall c :: c in draft[..n] ==> c.tenant == tenant && c.run == run
      invariant claims == ClaimsOut(draft[..n], byId, policy)
      invariant citations == CitesOut(tenant, run, draft[..n], byId) && mark == |citations|
      invariant issues == IssuesOut(draft[..n], byId, policy)
    {
      var claim := draft[n];
      assert draft[..n + 1] == draft[..n] + [claim];
      if claim.tenant != tenant || claim.run != run {
        assert claim in draft;
        return None;
      }
      OneMoreClaim(tenant, run, draft[..n], claim, byId, policy);
      claims, citations, issues, mark :=
        ValidateClaim(tenant, run, claim, byId, policy, claims, citations, issues, mark);
    }
    assert draft[..|draft|] == draft;
    r := Some(Answer(tenant, run, claims, citations, issues));
  }

  // ---------------------------------------------------------------- every factual claim is cited

  predicate Numbered(cites: seq<Citation>) {
    forall i :: 0 <= i < |cites| ==> cites[i].mark == i + 1 && cites[i].id == i
  }

  /** Labels run [1], [2], ... without a gap, over the whole answer, and every citation is of its run. */
  lemma {:induction false} LabelsRun(tenant: nat, run: nat, claims: seq<Claim>, byId: map<nat, Verified>)
    ensures Numbered(CitesOut(tenant, run, claims, byId))
    ensures forall c :: c in CitesOut(tenant, run, claims, byId) ==> c.tenant == tenant && c.run == run
  {
    hide CitesOf;
    if claims != [] {
      var init, claim := claims[..|claims| - 1], claims[|claims| - 1];
      LabelsRun(tenant, run, init, byId);
      var before := CitesOut(tenant, run, init, byId);
      NewLabels(tenant, run, claim, byId, |before|);
      AppendNumbered(before, CitesOf(tenant, run, claim, byId, |before|));
    }
  }

  lemma AppendNumbered(before: seq<Citation>, added: seq<Citation>)
    requires Numbered(before)
    requires forall k :: 0 <= k < |added| ==> added[k].mark == |before| + k + 1 && added[k].id == |before| + k
    ensures Numbered(before + added)
  {
    var cs := before + added;
    forall i | 0 <= i < |cs| ensures cs[i].mark == i + 1 && cs[i].id == i {
      if i >= |before| {
        assert cs[i] == added[i - |before|];
      }
    }
  }

  lemma NewLabels(tenant: nat, run: nat, claim: Claim, byId: map<nat, Verified>, before: nat)
    ensures var cs := CitesOf(tenant, run, claim, byId, before);
      forall k :: 0 <= k < |cs| ==>
        cs[k].mark == before + k + 1 && cs[k].id == before + k && cs[k].tenant == tenant && cs[k].run == run
  {
    hide ValidEvidence;
  }

  /** The citations of one claim: one for each of its evidence identifiers, in their order, with
      ordinals from 1. */
  predicate CitedInOrder(claim: Claim, cites: seq<Citation>, from: nat) {
    claim.ids != [] && forall k :: 0 <= k < |claim.ids| ==> CitedAt(claim, cites, from, k)
  }

  predicate CitedAt(claim: Claim, cites: seq<Citation>, from: nat, k: nat)
    requires k < |claim.ids|
  {
    && from + k < |cites|
    && cites[from + k].claim == claim.id
    && cites[from + k].evidence == claim.ids[k]
    && cites[from + k].ordinal == k + 1
  }

  ghost predicate Cited(claim: Claim, cites: seq<Citation>) {
    exists from: nat :: CitedInOrder(claim, cites, from)
  }

  lemma OneClaimIsCited(
      tenant: nat, run: nat, claim: Claim, byId: map<nat, Verified>, policy: Policy, before: seq<Citation>)
    ensures forall c :: c in ClaimOut(claim, byId, policy) && c.kind == Factual ==>
      CitedInOrder(c, before + CitesOf(tenant, run, claim, byId, |before|), |before|)
  {
    hide ValidEvidence, ValidatedSupport, Prefix;
  }

  /** Every factual claim that leaves the validator is cited, and in full. */
  lemma {:induction false} FactualIsCited(
      tenant: nat, run: nat, claims: seq<Claim>, byId: map<nat, Verified>, policy: Policy)
    ensures forall c :: c in ClaimsOut(claims, byId, policy) && c.kind == Factual ==>
      Cited(c, CitesOut(tenant, run, claims, byId))
  {
    hide ClaimOut, CitesOf, CitedInOrder;
    if claims != [] {
      var init, claim := claims[..|claims| - 1], claims[|claims| - 1];
      FactualIsCited(tenant, run, init, byId, policy);
      var before := CitesOut(tenant, run, init, byId);
      var added := CitesOf(tenant, run, claim, byId, |before|);
      OneClaimIsCited(tenant, run, claim, byId, policy, before);
      forall c | c in ClaimsOut(init, byId, policy) && c.kind == Factual ensures Cited(c, before + added) {
        var from: nat :| CitedInOrder(c, before, from);
        StaysCited(c, before, added, from);
      }
    }
  }

  lemma StaysCited(c: Claim, before: seq<Citation>, added: seq<Citation>, from: nat)
    requires CitedInOrder(c, before, from)
    ensures CitedInOrder(c, before + added, from)
  {
    forall k | 0 <= k < |c.ids| ensures CitedAt(c, before + added, from, k) {
      assert CitedAt(c, before, from, k);
    }
  }

  /** What a citation shows is exactly the evidence it names. */
  predicate Shows(c: Citation, e: Verified) {
    && c.evidence == e.id && c.version == e.candidate.source.version && c.chunk == e.candidate.source.chunk
    && c.url == e.candidate.source.url && c.quote == e.candidate.quote
    && c.start == e.candidate.start && c.end == e.candidate.end
  }

  /** Accepted evidence of the claim's own run, for the claim's own fact. */
  predicate Entitled(claim: Claim, e: Verified) {
    && claim.kind == Factual && e.accepted
    && e.candidate.tenant == claim.tenant && e.candidate.run == claim.run && Some(e.candidate.fact) == claim.fact
  }

  ghost predicate ShowsEntitled(c: Citation, claim: Claim, byId: map<nat, Verified>) {
    c.claim == claim.id && c.evidence in byId && Entitled(claim, byId[c.evidence]) && Shows(c, byId[c.evidence])
  }

  lemma {:induction false} ValidOnlyIsValid(claim: Claim, ids: seq<nat>, byId: map<nat, Verified>)
    ensures forall e :: e in ValidOnly(claim, ids, byId) <==> e.id in ids && ValidFor(claim, e.id, byId) && byId[e.id] == e
    ensures |ValidOnly(claim, ids, byId)| <= |ids|
    ensures (forall id :: id in ids ==> ValidFor(claim, id, byId)) ==> Ids(ValidOnly(claim, ids, byId)) == ids
  {
    if ids != [] {
      var init := ids[..|ids| - 1];
      ValidOnlyIsValid(claim, init, byId);
      assert ids == init + [ids[|ids| - 1]];
    }
  }

  lemma CitationIsEntitled(
      tenant: nat, run: nat, claim: Claim, valid: seq<Verified>, k: nat, before: nat, byId: map<nat, Verified>)
    requires k < |valid| && claim.kind == Factual
    requires ValidFor(claim, valid[k].id, byId) && byId[valid[k].id] == valid[k]
    ensures ShowsEntitled(CitationAt(tenant, run, claim, valid, k, before), claim, byId)
  {
  }

  lemma NewCitesAreEntitled(tenant: nat, run: nat, claim: Claim, byId: map<nat, Verified>, before: nat)
    ensures forall c :: c in CitesOf(tenant, run, claim, byId, before) ==> ShowsEntitled(c, claim, byId)
  {
    var valid := ValidEvidence(claim, byId);
    var cs := CitesOf(tenant, run, claim, byId, before);
    ValidOnlyIsValid(claim, Dedupe(claim.ids), byId);
    assert valid == ValidOnly(claim, Dedupe(claim.ids), byId);
    hide ValidEvidence, ValidOnly, Dedupe, ValidFor, ShowsEntitled;
    forall k | 0 <= k < |cs| ensures ShowsEntitled(cs[k], claim, byId) {
      assert valid[k] in valid;
      CitationIsEntitled(tenant, run, claim, valid, k, before, byId);
    }
  }

  /** No citation is invented: each shows accepted evidence for the fact of a drafted claim. */
  lemma {:induction false} CitesAreEntitled(tenant: nat, run: nat, claims: seq<Claim>, byId: map<nat, Verified>)
    ensures forall c :: c in CitesOut(tenant, run, claims, byId) ==>
      exists claim :: claim in claims && ShowsEntitled(c, claim, byId)
  {
    hide CitesOf, ShowsEntitled;
    if claims != [] {
      var init, claim := claims[..|claims| - 1], claims[|claims| - 1];
      CitesAreEntitled(tenant, run, init, byId);
      NewCitesAreEntitled(tenant, run, claim, byId, |CitesOut(tenant, run, init, byId)|);
      assert claims == init + [claim];
      assert claim in claims;
    }
  }

  lemma {:induction false} ValidOnlyIsDistinct(claim: Claim, ids: seq<nat>, byId: map<nat, Verified>)
    requires Distinct(ids)
    ensures Distinct(Ids(ValidOnly(claim, ids, byId)))
  {
    if ids != [] {
      var init := ids[..|ids| - 1];
      ValidOnlyIsDistinct(claim, init, byId);
      ValidOnlyIsValid(claim, init, byId);
      var before := ValidOnly(claim, init, byId);
      forall i | 0 <= i < |before| ensures before[i].id != ids[|ids| - 1] {
        assert before[i] in before;
      }
    }
  }

  /** Validating a validated claim again finds the same evidence. */
  lemma ValidatedAgain(claim: Claim, byId: map<nat, Verified>)
    ensures var valid := ValidEvidence(claim, byId); ValidEvidence(Validated(claim, valid), byId) == valid
  {
    var ids, valid := Dedupe(claim.ids), ValidEvidence(claim, byId);
    var c := Validated(claim, valid);
    DedupeIsExact(claim.ids);
    ValidOnlyIsValid(claim, ids, byId);
    ValidOnlyIsDistinct(claim, ids, byId);
    assert valid == ValidOnly(claim, ids, byId);
    DedupeIsExact(c.ids);
    ValidOnlyIsValid(c, c.ids, byId);
    hide ValidOnly, Dedupe, ValidatedSupport;
    forall id | id in c.ids ensures ValidFor(c, id, byId) {
      var i :| 0 <= i < |valid| && Ids(valid)[i] == id;
      assert valid[i] in valid;
    }
    var again := ValidOnly(c, c.ids, byId);
    assert Ids(again) == Ids(valid);
    forall i | 0 <= i < |valid| ensures again[i] == valid[i] {
      assert again[i] in again && valid[i] in valid;
    }
  }

  /** What a validated claim says of itself: its run, and the support of the evidence it cites. */
  predicate Stands(c: Claim, tenant: nat, run: nat, byId: map<nat, Verified>) {
    c.tenant == tenant && c.run == run &&
    (c.kind == Factual ==> c.support == ValidatedSupport(ValidEvidence(c, byId)))
  }

  lemma OneClaimStands(claim: Claim, byId: map<nat, Verified>, policy: Policy)
    ensures forall c :: c in ClaimOut(claim, byId, policy) ==> Stands(c, claim.tenant, claim.run, byId)
  {
    ValidatedAgain(claim, byId);
    hide ValidEvidence, ValidatedSupport, Prefix;
  }

  /** Every factual claim that leaves the validator has the support of exactly what it cites. */
  lemma {:induction false} ClaimsStand(
      tenant: nat, run: nat, claims: seq<Claim>, byId: map<nat, Verified>, policy: Policy)
    requires forall c :: c in claims ==> c.tenant == tenant && c.run == run
    ensures forall c :: c in ClaimsOut(claims, byId, policy) ==> Stands(c, tenant, run, byId)
  {
    hide ClaimOut, Stands;
    if claims != [] {
      var init, claim := claims[..|claims| - 1], claims[|claims| - 1];
      assert claims == init + [claim];
      assert claim in claims;
      ClaimsStand(tenant, run, init, byId, policy);
      OneClaimStands(claim, byId, policy);
    }
  }

  /** Offsets survive the whole chain: over grounded evidence, what every citation quotes is what
      its document version holds at the citation's offsets. */
  lemma CitationsAreExact(
      tenant: nat, run: nat, claims: seq<Claim>, byId: map<nat, Verified>, versions: map<nat, Version>, c: Citation)
    requires forall id :: id in byId ==>
      byId[id].candidate.source.version in versions &&
      Grounded(byId[id].candidate, versions[byId[id].candidate.source.version])
    requires c in CitesOut(tenant, run, claims, byId)
    ensures c.version in versions && c.start < c.end <= |versions[c.version].text|
    ensures versions[c.version].text[c.start..c.end] == c.quote
  {
    hide CitesOut;
    CitesAreEntitled(tenant, run, claims, byId);
  }

  // ---------------------------------------------------------------- the two supports agree

  /** The evidence by identifier: of a repeated identifier the last one counts. */
  function ById(es: seq<Verified>): map<nat, Verified> {
    if es == [] then map[] else ById(es[..|es| - 1])[es[|es| - 1].id := es[|es| - 1]]
  }

  lemma {:induction false} ByIdHolds(es: seq<Verified>)
    ensures forall id :: id in ById(es) ==> ById(es)[id] in es && ById(es)[id].id == id
    ensures forall e :: e in es ==> e.id in ById(es)
  {
    if es != [] {
      var init, last := es[..|es| - 1], es[|es| - 1];
      ByIdHolds(init);
      assert es == init + [last];
    }
  }

  lemma ByIdIsExact(es: seq<Verified>)
    requires UniqueIds(es)
    ensures forall id :: id in ById(es) ==> ById(es)[id] in es && ById(es)[id].id == id
    ensures forall e :: e in es ==> e.id in ById(es) && ById(es)[e.id] == e
  {
    ByIdHolds(es);
    hide ById;
    forall e | e in es ensures ById(es)[e.id] == e {
      SameIdSameEvidence(es, e, ById(es)[e.id]);
    }
  }

  lemma SameIdSameEvidence(es: seq<Verified>, a: Verified, b: Verified)
    requires UniqueIds(es) && a in es && b in es && a.id == b.id
    ensures a == b
  {
    var i :| 0 <= i < |es| && es[i] == a;
    var j :| 0 <= j < |es| && es[j] == b;
  }

  function SupportAt(status: Status): Support {
    match status
    case VerifiedFact => Confirmed
    case Partial => Conflicted
    case Covered => Sourced
    case Open => Unsupported
  }

  /** The claim cites evidence that counts, for the fact and the run of the assessment. */
  ghost predicate CitesFor(claim: Claim, es: seq<Verified>, tenant: nat, run: nat, fact: nat) {
    claim.tenant == tenant && claim.run == run && claim.fact == Some(fact) && UniqueIds(es)
  }

  /** What the validator finds for such a claim is what coverage accepted and the claim cites. */
  lemma ValidIsAcceptedAndCited(claim: Claim, es: seq<Verified>, tenant: nat, run: nat, fact: nat)
    requires CitesFor(claim, es, tenant, run, fact)
    ensures forall e :: e in ValidEvidence(claim, ById(es)) <==> e in Accepted(es, tenant, run, fact) && e.id in claim.ids
  {
    DedupeIsExact(claim.ids);
    ByIdIsExact(es);
    ValidOnlyIsValid(claim, Dedupe(claim.ids), ById(es));
    AcceptedIsExact(es, tenant, run, fact);
    hide Accepted, ById, Dedupe, ValidOnly;
  }

  lemma WellSourcedBySet(es: seq<Verified>)
    ensures HasOfficial(es) <==> exists e :: e in es && e.candidate.source.authority == Official
    ensures IndependentSources(es) ==
      set e | e in es && e.candidate.source.authority == Independent :: e.candidate.source.identity
  {
    var ids := set e | e in es && e.candidate.source.authority == Independent :: e.candidate.source.identity;
    forall x | x in ids ensures x in IndependentSources(es) {
      var e :| e in es && e.candidate.source.authority == Independent && e.candidate.source.identity == x;
      var i :| 0 <= i < |es| && es[i] == e;
      assert es[i].candidate.source.authority == Independent;
    }
    forall x | x in IndependentSources(es) ensures x in ids {
      var i :| 0 <= i < |es| && es[i].candidate.source.authority == Independent && es[i].candidate.source.identity == x;
      assert es[i] in es;
    }
    if e :| e in es && e.candidate.source.authority == Official {
      var i :| 0 <= i < |es| && es[i] == e;
      assert es[i].candidate.source.authority == Official;
    }
  }

  /** More evidence is never worse sourced. */
  lemma WellSourcedGrows(fewer: seq<Verified>, more: seq<Verified>)
    requires forall e :: e in fewer ==> e in more
    ensures WellSourced(fewer) ==> WellSourced(more)
  {
    WellSourcedBySet(fewer);
    WellSourcedBySet(more);
    assert IndependentSources(fewer) <= IndependentSources(more);
    Smaller(IndependentSources(fewer), IndependentSources(more));
  }

  /** The validator's own computation, in the terms coverage uses. */
  lemma ValidatedSupportMeans(es: seq<Verified>)
    ensures var pro, contra := (exists e :: e in es && e.candidate.direction == Supports),
        (exists e :: e in es && e.candidate.direction == Contradicts);
      ValidatedSupport(es) == if pro && contra then Conflicted else if WellSourced(es) then Confirmed else Sourced
  {
    WellSourcedBySet(es);
    var directions := set e | e in es :: e.candidate.direction;
    forall d | d in directions ensures d in {Supports, Contradicts} {
      match d
      case Supports =>
      case Contradicts =>
    }
    assert directions == {Supports, Contradicts} <==> Supports in directions && Contradicts in directions;
  }

  /** The support drafted from coverage and the support the validator recomputes agree whenever
      the claim cites all of its fact's accepted evidence. */
  lemma SupportsAgree(claim: Claim, es: seq<Verified>, tenant: nat, run: nat, fact: nat, highValue: bool)
    requires CitesFor(claim, es, tenant, run, fact)
    requires forall id :: id in Assess(tenant, run, fact, highValue, es).ids ==> id in claim.ids
    requires Assess(tenant, run, fact, highValue, es).status != Open
    ensures ValidatedSupport(ValidEvidence(claim, ById(es))) == SupportAt(Assess(tenant, run, fact, highValue, es).status)
  {
    var valid, accepted := ValidEvidence(claim, ById(es)), Accepted(es, tenant, run, fact);
    ValidIsAcceptedAndCited(claim, es, tenant, run, fact);
    forall e | e in accepted ensures e.id in claim.ids {
      InIds(accepted, e.id);
    }
    ValidatedSupportMeans(valid);
    FacingIsExact(accepted, Supports);
    FacingIsExact(accepted, Contradicts);
    WellSourcedGrows(valid, accepted);
    WellSourcedGrows(accepted, valid);
    hide ValidatedSupport, ValidEvidence, Accepted, WellSourced, Facing;
    FacingIsSome(accepted, Supports);
    FacingIsSome(accepted, Contradicts);
  }

  lemma FacingIsSome(es: seq<Verified>, d: Direction)
    ensures Facing(es, d) != [] <==> exists e :: e in es && e.candidate.direction == d
  {
    FacingIsExact(es, d);
    if Facing(es, d) != [] {
      assert Facing(es, d)[0] in es;
    }
  }

  /** Citing only some of the evidence never raises the level, unless coverage sees a conflict. */
  lemma SubsetNeverRaises(claim: Claim, es: seq<Verified>, tenant: nat, run: nat, fact: nat, highValue: bool)
    requires CitesFor(claim, es, tenant, run, fact)
    requires Assess(tenant, run, fact, highValue, es).status != Partial
    requires ValidEvidence(claim, ById(es)) != []
    ensures var status, support := Assess(tenant, run, fact, highValue, es).status,
        ValidatedSupport(ValidEvidence(claim, ById(es)));
      && support != Conflicted
      && (support == Confirmed ==> status == VerifiedFact)
  {
    var valid, accepted := ValidEvidence(claim, ById(es)), Accepted(es, tenant, run, fact);
    ValidIsAcceptedAndCited(claim, es, tenant, run, fact);
    assert valid[0] in accepted;
    ValidatedSupportMeans(valid);
    WellSourcedGrows(valid, accepted);
    hide ValidatedSupport, ValidEvidence, Accepted, WellSourced;
    FacingIsSome(accepted, Supports);
    FacingIsSome(accepted, Contradicts);
  }

  // ---------------------------------------------------------------- what citing a part says

  /** The evidence with one of these identifiers. */
  function Among(es: seq<Verified>, ids: seq<nat>): seq<Verified> {
    if es == [] then []
    else Among(es[..|es| - 1], ids) + if es[|es| - 1].id in ids then [es[|es| - 1]] else []
  }

  lemma {:induction false} AmongIsExact(es: seq<Verified>, ids: seq<nat>)
    ensures forall e :: e in Among(es, ids) <==> e in es && e.id in ids
  {
    if es != [] {
      AmongIsExact(es[..|es| - 1], ids);
      assert es == es[..|es| - 1] + [es[|es| - 1]];
    }
  }

  /** The claim cites some evidence that counts for the fact and points this way. */
  predicate CitesWay(claim: Claim, es: seq<Verified>, tenant: nat, run: nat, fact: nat, d: Direction) {
    exists e :: e in es && Counts(e, tenant, run, fact) && e.candidate.direction == d && e.id in claim.ids
  }

  lemma ValidAndCitedWay(claim: Claim, es: seq<Verified>, tenant: nat, run: nat, fact: nat, d: Direction)
    requires CitesFor(claim, es, tenant, run, fact)
    ensures CitesWay(claim, es, tenant, run, fact, d) <==>
      exists e :: e in ValidEvidence(claim, ById(es)) && e.candidate.direction == d
  {
    ValidIsAcceptedAndCited(claim, es, tenant, run, fact);
    AcceptedIsExact(es, tenant, run, fact);
    hide ValidEvidence, Accepted, ById;
  }

  /** What the validator makes of any citation of a fact's evidence: a conflict exactly when both
      directions are cited, and otherwise what the cited part's own sources are worth. */
  lemma SubsetSupportIs(claim: Claim, es: seq<Verified>, tenant: nat, run: nat, fact: nat)
    requires CitesFor(claim, es, tenant, run, fact)
    requires CitesWay(claim, es, tenant, run, fact, Supports) || CitesWay(claim, es, tenant, run, fact, Contradicts)
    ensures ValidEvidence(claim, ById(es)) != []
    ensures ValidatedSupport(ValidEvidence(claim, ById(es))) ==
      if CitesWay(claim, es, tenant, run, fact, Supports) && CitesWay(claim, es, tenant, run, fact, Contradicts)
      then Conflicted
      else if WellSourced(Among(Accepted(es, tenant, run, fact), claim.ids)) then Confirmed
      else Sourced
  {
    var valid, part := ValidEvidence(claim, ById(es)), Among(Accepted(es, tenant, run, fact), claim.ids);
    ValidAndCitedWay(claim, es, tenant, run, fact, Supports);
    ValidAndCitedWay(claim, es, tenant, run, fact, Contradicts);
    ValidIsAcceptedAndCited(claim, es, tenant, run, fact);
    AmongIsExact(Accepted(es, tenant, run, fact), claim.ids);
    ValidatedSupportMeans(valid);
    WellSourcedGrows(valid, part);
    WellSourcedGrows(part, valid);
    hide ValidatedSupport, ValidEvidence, Accepted, WellSourced, Among, CitesWay;
  }

  /** How much a support claims. */
  function Rank(s: Support): nat {
    match s
    case Unsupported => 0
    case Unconfirmed => 0
    case Conflicted => 1
    case Sourced => 2
    case Confirmed => 3
  }

  /** Citing a part of the evidence raises the level above what coverage allows if and only if
      coverage sees a conflict and the part shows only one side of it. */
  lemma SubsetRaisesIff(claim: Claim, es: seq<Verified>, tenant: nat, run: nat, fact: nat, highValue: bool)
    requires CitesFor(claim, es, tenant, run, fact)
    requires CitesWay(claim, es, tenant, run, fact, Supports) || CitesWay(claim, es, tenant, run, fact, Contradicts)
    ensures var before, after := SupportAt(Assess(tenant, run, fact, highValue, es).status),
        ValidatedSupport(ValidEvidence(claim, ById(es)));
      Rank(after) > Rank(before) <==>
        && Backed(es, tenant, run, fact, Supports) && Backed(es, tenant, run, fact, Contradicts)
        && !(CitesWay(claim, es, tenant, run, fact, Supports) && CitesWay(claim, es, tenant, run, fact, Contradicts))
  {
    SubsetSupportIs(claim, es, tenant, run, fact);
    AssessmentMeans(tenant, run, fact, highValue, es);
    CitedIsBacked(claim, es, tenant, run, fact);
    var status := Assess(tenant, run, fact, highValue, es).status;
    if status != Partial {
      SubsetNeverRaises(claim, es, tenant, run, fact, highValue);
    }
    hide ValidatedSupport, ValidEvidence, Assess, WellSourced, Among, CitesWay, Backed;
    FourStatuses(status);
  }

  lemma FourStatuses(s: Status)
    ensures s == Open || s == Covered || s == VerifiedFact || s == Partial
  {
  }

  lemma CitedIsBacked(claim: Claim, es: seq<Verified>, tenant: nat, run: nat, fact: nat)
    ensures CitesWay(claim, es, tenant, run, fact, Supports) ==> Backed(es, tenant, run, fact, Supports)
    ensures CitesWay(claim, es, tenant, run, fact, Contradicts) ==> Backed(es, tenant, run, fact, Contradicts)
  {
  }
}
