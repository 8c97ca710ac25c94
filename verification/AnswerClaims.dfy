/** What becomes of each proposal and of each drafted claim: which evidence it keeps, what support it is
    drafted with and leaves with, and what is reported about it. */
module AnswerClaims {
  import opened Wrappers
  import opened Evidence
  import opened Coverage
  import opened Answers
  import opened Completeness
  import opened AnswerQuality

  // ---------------------------------------------------------------- the order of identifiers

  /** `a` occurs in the list before `b` first does. */
  ghost predicate Before(ids: seq<nat>, a: nat, b: nat) {
    exists i :: 0 <= i < |ids| && ids[i] == a && b !in ids[..i + 1]
  }

  /** `kept` takes some identifiers of `ids`, each once, in the order of their first places. */
  ghost predicate KeptInOrder(ids: seq<nat>, kept: seq<nat>) {
    && (forall id :: id in kept ==> id in ids)
    && forall i, j :: 0 <= i < j < |kept| ==> Before(ids, kept[i], kept[j])
  }

  lemma BeforeStays(ids: seq<nat>, a: nat, b: nat)
    requires ids != [] && Before(ids[..|ids| - 1], a, b)
    ensures Before(ids, a, b)
  {
    var init := ids[..|ids| - 1];
    var i :| 0 <= i < |init| && init[i] == a && b !in init[..i + 1];
    assert ids[..i + 1] == init[..i + 1] && ids[i] == a;
  }

  lemma BeforeNew(ids: seq<nat>, a: nat)
    requires ids != [] && a in ids[..|ids| - 1] && ids[|ids| - 1] !in ids[..|ids| - 1]
    ensures Before(ids, a, ids[|ids| - 1])
  {
    var init := ids[..|ids| - 1];
    var i :| 0 <= i < |init| && init[i] == a;
    assert forall id :: id in ids[..i + 1] ==> id in init;
    assert ids[i] == a;
  }

  lemma {:induction false} DedupeInOrder(ids: seq<nat>)
    ensures KeptInOrder(ids, Dedupe(ids))
  {
    DedupeIsExact(ids);
    if ids != [] {
      var init, last := ids[..|ids| - 1], ids[|ids| - 1];
      DedupeInOrder(init);
      DedupeIsExact(init);
      var before, kept := Dedupe(init), Dedupe(ids);
      assert kept == if last in before then before else before + [last];
      hide Dedupe, Before;
      forall i, j | 0 <= i < j < |kept| ensures Before(ids, kept[i], kept[j]) {
        assert kept[i] == before[i] && before[i] in before;
        if j < |before| {
          BeforeStays(ids, before[i], before[j]);
        } else {
          BeforeNew(ids, before[i]);
        }
      }
    }
  }

  lemma LastInOrder(ids: seq<nat>, kept: seq<nat>)
    requires kept != [] && KeptInOrder(ids, kept)
    ensures KeptInOrder(ids, kept[..|kept| - 1]) && kept[|kept| - 1] in ids
    ensures var init, last := kept[..|kept| - 1], kept[|kept| - 1]; forall id :: id in init ==> Before(ids, id, last)
  {
    hide Before;
    var init := kept[..|kept| - 1];
    forall id | id in init ensures Before(ids, id, kept[|kept| - 1]) {
      var j :| 0 <= j < |init| && init[j] == id;
      assert kept[j] == id;
    }
  }

  lemma AppendInOrder(ids: seq<nat>, before: seq<nat>, last: nat)
    requires KeptInOrder(ids, before) && last in ids && forall id :: id in before ==> Before(ids, id, last)
    ensures KeptInOrder(ids, before + [last])
  {
    hide Before;
  }

  lemma {:induction false} OnlyInOrder(ids: seq<nat>, kept: seq<nat>, allowed: seq<nat>)
    requires KeptInOrder(ids, kept)
    ensures KeptInOrder(ids, Only(kept, allowed))
  {
    if kept != [] {
      var init, last := kept[..|kept| - 1], kept[|kept| - 1];
      LastInOrder(ids, kept);
      OnlyInOrder(ids, init, allowed);
      OnlyIsExact(init, allowed);
      hide Before, KeptInOrder;
      AppendInOrder(ids, Only(init, allowed), last);
      assert Only(init, allowed) + [] == Only(init, allowed);
    }
  }

  // ---------------------------------------------------------------- the draft

  /** The identifier is accepted evidence in the coverage of the proposal's fact. */
  predicate Usable(p: Proposal, coverage: map<nat, Assessment>, id: nat) {
    p.fact.Some? && p.fact.value in coverage && id in coverage[p.fact.value].ids
  }

  lemma KeepsUsable(p: Proposal, coverage: map<nat, Assessment>)
    ensures var ids := AllowedIds(p, coverage);
      (forall id :: id in ids <==> id in p.ids && Usable(p, coverage, id)) && KeptInOrder(p.ids, ids)
  {
    var a := AssessmentFor(p, coverage);
    var allowed := if a.Some? then a.value.ids else [];
    DedupeIsExact(p.ids);
    DedupeInOrder(p.ids);
    OnlyIsExact(Dedupe(p.ids), allowed);
    OnlyInOrder(p.ids, Dedupe(p.ids), allowed);
    hide Dedupe, Only, KeptInOrder;
  }

  /** The drafted claim says what was proposed, of the proposed fact; it keeps the usable identifiers, each
      once and in the proposed order, and a factual claim that keeps one has the support that coverage
      allows. Any other claim is drafted unsupported. */
  lemma DraftSays(n: nat, tenant: nat, run: nat, p: Proposal, coverage: map<nat, Assessment>)
    ensures var c := DraftClaim(n, tenant, run, p, coverage);
      && c.id == n && c.tenant == tenant && c.run == run
      && c.key == p.key && c.text == p.text && c.fact == p.fact && c.kind == p.kind
      && (forall id :: id in c.ids <==> id in p.ids && Usable(p, coverage, id))
      && KeptInOrder(p.ids, c.ids)
      && (p.kind == Factual && c.ids != [] ==>
            p.fact.Some? && p.fact.value in coverage && c.support == SupportAt(coverage[p.fact.value].status))
      && (p.kind != Factual || c.ids == [] ==> c.support == Unsupported)
  {
    KeepsUsable(p, coverage);
    hide AllowedIds, KeptInOrder;
    var ids := AllowedIds(p, coverage);
    if ids != [] {
      assert ids[0] in ids && p.fact.Some? && p.fact.value in coverage;
      StatusTells(coverage[p.fact.value], ids, p.kind);
    }
  }

  lemma StatusTells(a: Assessment, ids: seq<nat>, kind: Kind)
    requires ids != []
    ensures SupportOf(Some(a), ids, kind) == if kind == Factual then SupportAt(a.status) else Unsupported
  {
  }

  /** A factual proposal about a covered fact that cites all of the fact's accepted evidence goes through
      validation as it was drafted: the same claim, and nothing to report. */
  lemma FullCitationIsUntouched(
      n: nat, tenant: nat, run: nat, p: Proposal, coverage: map<nat, Assessment>, es: seq<Verified>, fact: nat,
      highValue: bool, policy: Policy)
    requires UniqueIds(es) && p.kind == Factual && p.fact == Some(fact)
    requires fact in coverage && coverage[fact] == Assess(tenant, run, fact, highValue, es)
    requires forall id :: id in coverage[fact].ids ==> id in p.ids
    requires coverage[fact].status != Open
    ensures var c := DraftClaim(n, tenant, run, p, coverage);
      ClaimOut(c, ById(es), policy) == [c] && IssuesOf(c, ById(es), policy) == []
  {
    var c := DraftClaim(n, tenant, run, p, coverage);
    var a := coverage[fact];
    DraftSays(n, tenant, run, p, coverage);
    hide DraftClaim;
    assert CitesFor(c, es, tenant, run, fact);
    SupportsAgree(c, es, tenant, run, fact, highValue);
    KeptIsDistinct(p.ids, c.ids);
    FullyValid(c, es, tenant, run, fact, highValue);
    hide Assess, ValidEvidence, ValidatedSupport, Accepted, CitesFor, KeptInOrder;
  }

  lemma KeptIsDistinct(ids: seq<nat>, kept: seq<nat>)
    requires KeptInOrder(ids, kept)
    ensures Distinct(kept)
  {
  }

  /** If exactly the accepted evidence is cited, all of it is found valid, in the cited order. */
  lemma FullyValid(claim: Claim, es: seq<Verified>, tenant: nat, run: nat, fact: nat, highValue: bool)
    requires CitesFor(claim, es, tenant, run, fact) && Distinct(claim.ids)
    requires forall id :: id in claim.ids <==> id in Assess(tenant, run, fact, highValue, es).ids
    requires Assess(tenant, run, fact, highValue, es).status != Open
    ensures Ids(ValidEvidence(claim, ById(es))) == claim.ids && claim.ids != []
  {
    var byId := ById(es);
    DedupeIsExact(claim.ids);
    ByIdIsExact(es);
    AcceptedIsExact(es, tenant, run, fact);
    ValidOnlyIsValid(claim, claim.ids, byId);
    AssessmentMeans(tenant, run, fact, highValue, es);
    hide Accepted, ById, Dedupe, ValidOnly;
    forall id | id in claim.ids ensures ValidFor(claim, id, byId) {
      AssessmentLists(tenant, run, fact, highValue, es, id);
      var e :| e in es && e.id == id && Counts(e, tenant, run, fact);
      assert byId[id] == e;
    }
    var d := if Backed(es, tenant, run, fact, Supports) then Supports else Contradicts;
    var e :| e in es && Counts(e, tenant, run, fact) && e.candidate.direction == d;
    AssessmentLists(tenant, run, fact, highValue, es, e.id);
  }

  // ---------------------------------------------------------------- every drafted claim is accounted for

  /** The claim may cite this identifier: accepted evidence of its own run, for its own fact. */
  predicate Citable(claim: Claim, id: nat, byId: map<nat, Verified>) {
    && id in claim.ids && id in byId && byId[id].id == id && byId[id].accepted
    && byId[id].candidate.tenant == claim.tenant && byId[id].candidate.run == claim.run
    && claim.fact == Some(byId[id].candidate.fact)
  }

  /** A claim that needs evidence and has none. */
  predicate Unbacked(claim: Claim, byId: map<nat, Verified>) {
    claim.kind == Factual && forall id :: id in claim.ids ==> !Citable(claim, id, byId)
  }

  /** How a claim leaves the validator: unless it is factual, untouched; with the identifiers it may
      cite, in their order, and nothing else changed but the support; or, having none, as an
      uncertainty that says so. */
  ghost predicate Becomes(claim: Claim, out: Claim, byId: map<nat, Verified>, policy: Policy) {
    if claim.kind != Factual then out == claim
    else if Unbacked(claim, byId) then
      && out == claim.(text := out.text, kind := Uncertainty, support := Unconfirmed, ids := [])
      && |out.text| > |claim.text| && out.text[|out.text| - |claim.text|..] == claim.text
    else
      && out == claim.(ids := out.ids, support := out.support)
      && (forall id :: id in out.ids <==> Citable(claim, id, byId)) && KeptInOrder(claim.ids, out.ids)
  }

  lemma {:induction false} ValidInOrder(claim: Claim, kept: seq<nat>, byId: map<nat, Verified>)
    requires KeptInOrder(claim.ids, kept)
    ensures KeptInOrder(claim.ids, Ids(ValidOnly(claim, kept, byId)))
  {
    if kept != [] {
      var init, last := kept[..|kept| - 1], kept[|kept| - 1];
      LastInOrder(claim.ids, kept);
      ValidInOrder(claim, init, byId);
      ValidOnlyIsValid(claim, init, byId);
      var before := ValidOnly(claim, init, byId);
      forall id | id in Ids(before) ensures id in init {
        InIds(before, id);
      }
      if ValidFor(claim, last, byId) {
        assert Ids(ValidOnly(claim, kept, byId)) == Ids(before) + [last];
        hide Before, KeptInOrder;
        AppendInOrder(claim.ids, Ids(before), last);
      } else {
        assert ValidOnly(claim, kept, byId) == before + [];
        assert before + [] == before;
      }
    }
  }

  lemma ValidIsCitable(claim: Claim, byId: map<nat, Verified>)
    ensures var ids := Ids(ValidEvidence(claim, byId));
      && KeptInOrder(claim.ids, ids)
      && forall id :: id in ids <==> Citable(claim, id, byId)
  {
    DedupeIsExact(claim.ids);
    DedupeInOrder(claim.ids);
    ValidInOrder(claim, Dedupe(claim.ids), byId);
    ValidOnlyIsValid(claim, Dedupe(claim.ids), byId);
    var valid := ValidEvidence(claim, byId);
    hide Dedupe, ValidOnly, KeptInOrder;
    forall id ensures id in Ids(valid) <==> Citable(claim, id, byId) {
      InIds(valid, id);
      if Citable(claim, id, byId) {
        assert ValidFor(claim, id, byId) && byId[id] in valid;
      }
    }
  }

  lemma OneClaimBecomes(claim: Claim, byId: map<nat, Verified>, policy: Policy)
    ensures if policy == Drop && Unbacked(claim, byId) then ClaimOut(claim, byId, policy) == []
            else |ClaimOut(claim, byId, policy)| == 1 && Becomes(claim, ClaimOut(claim, byId, policy)[0], byId, policy)
  {
    var valid := ValidEvidence(claim, byId);
    ValidIsCitable(claim, byId);
    hide ValidEvidence, KeptInOrder, ValidatedSupport;
    if valid == [] {
      assert forall id :: id !in Ids(valid);
    } else {
      assert Ids(valid)[0] in Ids(valid);
    }
  }

  /** `at` gives, in order, the drafted claim that each claim of the answer comes from; the others are
      factual claims without evidence, dropped because the policy says so. */
  ghost predicate Accounts(claims: seq<Claim>, out: seq<Claim>, at: seq<nat>, byId: map<nat, Verified>, policy: Policy) {
    && |at| == |out|
    && (forall i, j :: 0 <= i < j < |at| ==> at[i] < at[j])
    && (forall i :: 0 <= i < |at| ==> at[i] < |claims| && Becomes(claims[at[i]], out[i], byId, policy))
    && (forall n: nat :: n < |claims| && n !in at ==> policy == Drop && Unbacked(claims[n], byId))
  }

  lemma DroppedIsAccounted(claims: seq<Claim>, out: seq<Claim>, at: seq<nat>, byId: map<nat, Verified>, policy: Policy)
    requires claims != [] && Accounts(claims[..|claims| - 1], out, at, byId, policy)
    requires policy == Drop && Unbacked(claims[|claims| - 1], byId)
    ensures Accounts(claims, out, at, byId, policy)
  {
    hide Becomes, Unbacked;
    var init := claims[..|claims| - 1];
    forall n: nat | n < |claims| && n !in at ensures policy == Drop && Unbacked(claims[n], byId) {
      assert n < |init| ==> init[n] == claims[n];
    }
  }

  lemma KeptIsAccounted(
      claims: seq<Claim>, out: seq<Claim>, at: seq<nat>, byId: map<nat, Verified>, policy: Policy, last: Claim)
    requires claims != [] && Accounts(claims[..|claims| - 1], out, at, byId, policy)
    requires Becomes(claims[|claims| - 1], last, byId, policy)
    ensures Accounts(claims, out + [last], at + [|claims| - 1], byId, policy)
  {
    hide Becomes, Unbacked;
    var init, n := claims[..|claims| - 1], |claims| - 1;
    var more := at + [n];
    assert forall k: nat :: k in more <==> k in at || k == n;
    forall k: nat | k < |claims| && k !in more ensures policy == Drop && Unbacked(claims[k], byId) {
      assert init[k] == claims[k];
    }
    forall i | 0 <= i < |more| ensures more[i] < |claims| && Becomes(claims[more[i]], (out + [last])[i], byId, policy) {
      if i < |at| {
        assert init[at[i]] == claims[at[i]];
      }
    }
  }

  /** No claim is lost, invented or reordered by validation. */
  lemma {:induction false} EveryClaimIsAccounted(
      claims: seq<Claim>, byId: map<nat, Verified>, policy: Policy) returns (at: seq<nat>)
    ensures Accounts(claims, ClaimsOut(claims, byId, policy), at, byId, policy)
  {
    at := [];
    if claims != [] {
      var init, claim := claims[..|claims| - 1], claims[|claims| - 1];
      at := EveryClaimIsAccounted(init, byId, policy);
      OneClaimBecomes(claim, byId, policy);
      hide ClaimOut, Becomes, Unbacked, Accounts;
      var out, last := ClaimsOut(init, byId, policy), ClaimOut(claim, byId, policy);
      if last == [] {
        DroppedIsAccounted(claims, out, at, byId, policy);
        assert out + last == out;
      } else {
        KeptIsAccounted(claims, out, at, byId, policy, last[0]);
        assert last == [last[0]];
        at := at + [|init|];
      }
    }
  }

  /** How many citations the factual claims call for. */
  function CitesDue(out: seq<Claim>): nat {
    if out == [] then 0
    else CitesDue(out[..|out| - 1]) + if out[|out| - 1].kind == Factual then |out[|out| - 1].ids| else 0
  }

  lemma CitesDueAdds(a: seq<Claim>, b: seq<Claim>)
    requires |b| <= 1
    ensures CitesDue(a + b) == CitesDue(a) + CitesDue(b)
  {
    if b != [] {
      assert (a + b)[..|a|] == a && b[..0] == [];
    } else {
      assert a + b == a;
    }
  }

  /** There is one citation for each identifier of each factual claim of the answer, and no other. */
  lemma {:induction false} NoMoreCitations(
      tenant: nat, run: nat, claims: seq<Claim>, byId: map<nat, Verified>, policy: Policy)
    ensures |CitesOut(tenant, run, claims, byId)| == CitesDue(ClaimsOut(claims, byId, policy))
  {
    if claims != [] {
      var init, claim := claims[..|claims| - 1], claims[|claims| - 1];
      NoMoreCitations(tenant, run, init, byId, policy);
      OneClaimCites(tenant, run, claim, byId, policy, |CitesOut(tenant, run, init, byId)|);
      hide ClaimOut, CitesOf, CitesDue;
      CitesDueAdds(ClaimsOut(init, byId, policy), ClaimOut(claim, byId, policy));
    }
  }

  lemma OneClaimCites(tenant: nat, run: nat, claim: Claim, byId: map<nat, Verified>, policy: Policy, before: nat)
    ensures |ClaimOut(claim, byId, policy)| <= 1
    ensures |CitesOf(tenant, run, claim, byId, before)| == CitesDue(ClaimOut(claim, byId, policy))
  {
    hide ValidEvidence, ValidatedSupport, Prefix;
    var out := ClaimOut(claim, byId, policy);
    if out != [] {
      assert CitesDue(out[..0]) == 0;
    }
  }

  // ---------------------------------------------------------------- what is reported

  /** What the validator has to say of one claim. */
  ghost predicate Reported(claim: Claim, issue: Issue, byId: map<nat, Verified>, policy: Policy) {
    && claim.kind == Factual
    && var cited := set id | id in claim.ids && Citable(claim, id, byId);
       match issue
       case InvalidMapping(key, removed) => key == claim.key && removed == |claim.ids| - |cited| && removed != 0
       case UnsupportedClaim(key, p) => key == claim.key && p == policy && cited == {}
       case SupportRecalculated(key, before, after) =>
         && key == claim.key && cited != {} && before == claim.support && after != before
         && after == ValidatedSupport(ValidEvidence(claim, byId))
  }

  function Members(ids: seq<nat>): set<nat> {
    set id | id in ids
  }

  lemma {:induction false} DistinctCount(ids: seq<nat>)
    requires Distinct(ids)
    ensures |Members(ids)| == |ids|
  {
    if ids == [] {
      assert Members(ids) == {};
    } else {
      var init, last := ids[..|ids| - 1], ids[|ids| - 1];
      DistinctCount(init);
      assert last !in init;
      assert Members(ids) == Members(init) + {last} by {
        assert ids == init + [last];
      }
    }
  }

  lemma OneClaimIsReported(claim: Claim, byId: map<nat, Verified>, policy: Policy, issue: Issue)
    ensures issue in IssuesOf(claim, byId, policy) <==> Reported(claim, issue, byId, policy)
  {
    var valid := ValidEvidence(claim, byId);
    var cited := set id | id in claim.ids && Citable(claim, id, byId);
    ValidIsCitable(claim, byId);
    KeptIsDistinct(claim.ids, Ids(valid));
    DistinctCount(Ids(valid));
    assert cited == Members(Ids(valid));
    hide ValidEvidence, Citable, KeptInOrder, ValidatedSupport, Members, Distinct, Dedupe;
    assert cited == {} <==> valid == [] by {
      if valid != [] { assert Ids(valid)[0] in cited; }
    }
  }

  /** An issue is reported exactly when some claim gives rise to it. */
  lemma {:induction false} IssuesTell(claims: seq<Claim>, byId: map<nat, Verified>, policy: Policy, issue: Issue)
    ensures issue in IssuesOut(claims, byId, policy) <==>
            exists claim :: claim in claims && Reported(claim, issue, byId, policy)
  {
    hide IssuesOf, Reported;
    if claims != [] {
      var init, claim := claims[..|claims| - 1], claims[|claims| - 1];
      assert claims == init + [claim];
      IssuesTell(init, byId, policy, issue);
      OneClaimIsReported(claim, byId, policy, issue);
      if c :| c in init && Reported(c, issue, byId, policy) {
        assert c in claims;
      }
    }
  }

  // ---------------------------------------------------------------- a model's reply

  /** The proposal states the raw claim, of its fact and under its key, with each of its identifiers once
      and the repaired wording. */
  ghost predicate Restates(raw: RawClaim, p: Proposal, reword: Rewording) {
    && p.key == raw.key && p.fact == Some(raw.fact) && p.kind == Factual
    && (forall id :: id in p.ids <==> id in raw.ids) && KeptInOrder(raw.ids, p.ids)
    && reword(raw.fact, raw.text, p.ids) == Some(p.text)
  }

  predicate HasText(s: string) {
    exists i :: 0 <= i < |s| && s[i] !in " \t\n\r"
  }

  /** The raw claim has the four fields and no other, names a planned fact, says something in at most 1200
      characters, and cites evidence, all of it accepted for that fact. */
  predicate Sound(raw: RawClaim, facts: seq<Fact>, es: seq<Verified>) {
    && raw.known && HasText(raw.key) && HasText(raw.text) && |raw.text| <= 1200
    && (exists f :: f in facts && f.id == raw.fact)
    && raw.ids != []
    && forall id :: id in raw.ids ==> exists e :: e in es && e.id == id && e.accepted && e.candidate.fact == raw.fact
  }

  lemma EvidenceFactOf(es: seq<Verified>, id: nat, fact: nat)
    requires UniqueIds(es)
    ensures (id in EvidenceFact(es) && EvidenceFact(es)[id] == fact) <==>
            exists e :: e in es && e.id == id && e.accepted && e.candidate.fact == fact
  {
    EvidenceFactIsExact(es);
    hide EvidenceFact;
    if e :| e in es && e.id == id && e.accepted && e.candidate.fact == fact {
      var d :| d in es && d.id == id && d.accepted && d.candidate.fact == EvidenceFact(es)[id];
      SameIdSameEvidence(es, d, e);
    }
  }

  lemma TextIsNotBlank(s: string)
    ensures HasText(s) <==> !Blank(s)
  {
  }

  lemma ProposedRestates(raw: RawClaim, reword: Rewording)
    ensures Proposed(raw, reword).text == raw.text || reword(raw.fact, raw.text, Dedupe(raw.ids)).Some?
    ensures reword(raw.fact, raw.text, Dedupe(raw.ids)).Some? ==> Restates(raw, Proposed(raw, reword), reword)
    ensures Dedupe(raw.ids) == [] <==> raw.ids == []
  {
    DedupeIsExact(raw.ids);
    DedupeInOrder(raw.ids);
    hide Dedupe, KeptInOrder;
    if raw.ids != [] {
      assert raw.ids[0] in Dedupe(raw.ids);
    }
  }

  lemma OneRawAccepted(raw: RawClaim, facts: seq<Fact>, es: seq<Verified>, reword: Rewording)
    requires UniqueIds(es)
    ensures RawAccepted(raw, facts, EvidenceFact(es), reword) <==> Proposable(raw, facts, es, reword)
  {
    var ids := Dedupe(raw.ids);
    DedupeIsExact(raw.ids);
    ProposedRestates(raw, reword);
    TextIsNotBlank(raw.key);
    TextIsNotBlank(raw.text);
    TextIsNotBlank(Proposed(raw, reword).text);
    forall id ensures (id in EvidenceFact(es) && EvidenceFact(es)[id] == raw.fact) <==>
        exists e :: e in es && e.id == id && e.accepted && e.candidate.fact == raw.fact {
      EvidenceFactOf(es, id, raw.fact);
    }
    hide EvidenceFact, Dedupe, KeptInOrder, Blank, HasText;
    RestatedIds(raw, reword);
  }

  lemma RestatedIds(raw: RawClaim, reword: Rewording)
    ensures Restates(raw, Proposed(raw, reword), reword) ==> reword(raw.fact, raw.text, Dedupe(raw.ids)).Some?
  {
  }

  /** Every fact with accepted evidence is claimed. */
  predicate AllClaimed(raws: seq<RawClaim>, es: seq<Verified>) {
    forall e :: e in es && e.accepted ==> Claims(raws, e.candidate.fact)
  }

  predicate Claims(raws: seq<RawClaim>, fact: nat) {
    exists raw :: raw in raws && raw.fact == fact
  }

  predicate KeysApart(raws: seq<RawClaim>) {
    forall i, j :: 0 <= i < j < |raws| ==> raws[i].key != raws[j].key
  }

  /** The raw claim is sound and can be worded. */
  ghost predicate Proposable(raw: RawClaim, facts: seq<Fact>, es: seq<Verified>, reword: Rewording) {
    Sound(raw, facts, es) && Restates(raw, Proposed(raw, reword), reword) && HasText(Proposed(raw, reword).text)
  }

  ghost predicate ReplyFits(raws: seq<RawClaim>, facts: seq<Fact>, es: seq<Verified>, reword: Rewording) {
    && |raws| <= 2 * |facts| && KeysApart(raws) && AllClaimed(raws, es)
    && forall raw :: raw in raws ==> Proposable(raw, facts, es, reword)
  }

  lemma AcceptedFits(raws: seq<RawClaim>, facts: seq<Fact>, es: seq<Verified>, reword: Rewording)
    requires UniqueIds(es) && ReplyAccepted(raws, facts, es, reword)
    ensures ReplyFits(raws, facts, es, reword)
  {
    KeysDiffer(raws);
    hide RawAccepted, Proposable, EvidenceFact, KeysApart, RepeatsRawKey, UniqueIds;
    forall raw | raw in raws ensures Proposable(raw, facts, es, reword) {
      var n :| 0 <= n < |raws| && raws[n] == raw;
      OneRawAccepted(raw, facts, es, reword);
    }
    forall e | e in es && e.accepted ensures Claims(raws, e.candidate.fact) {
      EvidenceFactOf(es, e.id, e.candidate.fact);
      var n :| 0 <= n < |raws| && raws[n].fact == EvidenceFact(es)[e.id];
      assert raws[n] in raws;
    }
  }

  lemma FittingIsAccepted(raws: seq<RawClaim>, facts: seq<Fact>, es: seq<Verified>, reword: Rewording)
    requires UniqueIds(es) && ReplyFits(raws, facts, es, reword)
    ensures ReplyAccepted(raws, facts, es, reword)
  {
    KeysDiffer(raws);
    EvidenceFactIsExact(es);
    hide RawAccepted, Proposable, EvidenceFact, KeysApart, RepeatsRawKey, UniqueIds;
    forall n | 0 <= n < |raws| ensures RawAccepted(raws[n], facts, EvidenceFact(es), reword) {
      OneRawAccepted(raws[n], facts, es, reword);
      assert raws[n] in raws;
    }
    forall id | id in EvidenceFact(es) ensures exists n :: 0 <= n < |raws| && raws[n].fact == EvidenceFact(es)[id] {
      var e :| e in es && e.id == id && e.accepted && e.candidate.fact == EvidenceFact(es)[id];
      assert Claims(raws, e.candidate.fact);
      var raw :| raw in raws && raw.fact == e.candidate.fact;
      var n :| 0 <= n < |raws| && raws[n] == raw;
    }
  }

  /** A reply is accepted, as a whole, exactly when it is not too long, its keys differ, each of its claims is
      sound and can be worded, and every fact with accepted evidence is claimed; it is then proposed claim
      for claim. */
  lemma ReplyIsAcceptedIff(raws: seq<RawClaim>, facts: seq<Fact>, es: seq<Verified>, reword: Rewording)
    requires UniqueIds(es)
    ensures ReplyAccepted(raws, facts, es, reword) <==> ReplyFits(raws, facts, es, reword)
  {
    hide ReplyAccepted, ReplyFits, UniqueIds;
    if ReplyAccepted(raws, facts, es, reword) {
      AcceptedFits(raws, facts, es, reword);
    }
    if ReplyFits(raws, facts, es, reword) {
      FittingIsAccepted(raws, facts, es, reword);
    }
  }

  lemma KeysDiffer(raws: seq<RawClaim>)
    ensures (forall n :: 0 <= n < |raws| ==> !RepeatsRawKey(raws, n)) <==> KeysApart(raws)
  {
    if i, j :| 0 <= i < j < |raws| && raws[i].key == raws[j].key {
      assert RepeatsRawKey(raws, j);
    }
  }

  // ---------------------------------------------------------------- the answer made without a model

  /** The claim is made for the fact: under its key, in the given wording, citing all its accepted supporting
      evidence, with the support of just that. */
  ghost predicate MadeFor(c: Claim, f: Fact, tenant: nat, run: nat, es: seq<Verified>, wording: Wording) {
    && c.kind == Factual && c.fact == Some(f.id) && c.key == f.key && c.text == wording(f.id, c.ids)
    && c.ids != [] && Distinct(c.ids)
    && forall id :: id in c.ids <==>
         exists e :: e in es && e.id == id && Counts(e, tenant, run, f.id) && e.candidate.direction == Supports
  }

  /** `at` gives, in order, the fact each claim is made for; the other facts have no accepted supporting
      evidence. */
  ghost predicate OneForEach(
      claims: seq<Claim>, facts: seq<Fact>, at: seq<nat>, tenant: nat, run: nat, es: seq<Verified>, wording: Wording)
  {
    && |at| == |claims|
    && (forall i, j :: 0 <= i < j < |at| ==> at[i] < at[j])
    && (forall i :: 0 <= i < |at| ==> at[i] < |facts| && MadeFor(claims[i], facts[at[i]], tenant, run, es, wording))
    && (forall n: nat :: n < |facts| && n !in at ==> !Backed(es, tenant, run, facts[n].id, Supports))
  }

  /** `at` gives, in order, the facts for which the fallback makes a proposal. */
  ghost predicate ProposedAt(
      ps: seq<Proposal>, facts: seq<Fact>, at: seq<nat>, coverage: map<nat, Assessment>, byId: map<nat, Verified>,
      wording: Wording)
    requires forall f :: f in facts ==> f.id in coverage
  {
    && |at| == |ps|
    && (forall i, j :: 0 <= i < j < |at| ==> at[i] < at[j])
    && (forall i :: 0 <= i < |at| ==>
          at[i] < |facts| && FallbackIds(facts[at[i]], coverage, byId) != []
          && ps[i] == FallbackProposal(facts[at[i]], coverage, byId, wording))
    && (forall n: nat :: n < |facts| && n !in at ==> FallbackIds(facts[n], coverage, byId) == [])
  }

  lemma ProposedAtMore(
      ps: seq<Proposal>, facts: seq<Fact>, at: seq<nat>, coverage: map<nat, Assessment>, byId: map<nat, Verified>,
      wording: Wording)
    requires facts != [] && (forall f :: f in facts ==> f.id in coverage)
    requires (forall f :: f in facts[..|facts| - 1] ==> f.id in coverage)
             && ProposedAt(ps, facts[..|facts| - 1], at, coverage, byId, wording)
    ensures var last := facts[|facts| - 1];
      if FallbackIds(last, coverage, byId) == [] then ProposedAt(ps, facts, at, coverage, byId, wording)
      else ProposedAt(ps + [FallbackProposal(last, coverage, byId, wording)], facts, at + [|facts| - 1], coverage, byId, wording)
  {
    hide FallbackIds, FallbackProposal;
    var init, n := facts[..|facts| - 1], |facts| - 1;
    var more := at + [n];
    assert forall k: nat :: k in more <==> k in at || k == n;
    forall k: nat | k < n && k !in at ensures FallbackIds(facts[k], coverage, byId) == [] {
      assert init[k] == facts[k];
    }
    forall i | 0 <= i < |at| ensures at[i] < n && facts[at[i]] == init[at[i]] {
    }
  }

  lemma {:induction false} FallbackInOrder(
      facts: seq<Fact>, coverage: map<nat, Assessment>, byId: map<nat, Verified>, wording: Wording) returns (at: seq<nat>)
    requires forall f :: f in facts ==> f.id in coverage
    ensures ProposedAt(FallbackProposals(facts, coverage, byId, wording), facts, at, coverage, byId, wording)
  {
    at := [];
    if facts != [] {
      var init, last := facts[..|facts| - 1], facts[|facts| - 1];
      at := FallbackInOrder(init, coverage, byId, wording);
      hide FallbackIds, FallbackProposal, ProposedAt;
      var ps := FallbackProposals(init, coverage, byId, wording);
      ProposedAtMore(ps, facts, at, coverage, byId, wording);
      if FallbackIds(last, coverage, byId) == [] {
        assert ps + [] == ps;
      } else {
        at := at + [|init|];
      }
    }
  }

  lemma ClaimIsMadeFor(
      c: Claim, f: Fact, tenant: nat, run: nat, coverage: map<nat, Assessment>, es: seq<Verified>, wording: Wording)
    requires UniqueIds(es) && f.id in coverage && coverage[f.id] == Assess(tenant, run, f.id, f.highValue, es)
    requires FallbackIds(f, coverage, ById(es)) != [] && SameClaim(c, FallbackProposal(f, coverage, ById(es), wording))
    ensures MadeFor(c, f, tenant, run, es, wording)
  {
    FallbackCites(tenant, run, f, coverage, es);
    SupportingIsDistinct(tenant, run, f.id, f.highValue, es);
    hide Assess, FallbackIds, ById, Backed;
    forall id ensures id in c.ids <==>
        exists e :: e in es && e.id == id && Counts(e, tenant, run, f.id) && e.candidate.direction == Supports {
      AssessmentLists(tenant, run, f.id, f.highValue, es, id);
    }
  }

  lemma AnsweredInOrder(
      claims: seq<Claim>, ps: seq<Proposal>, at: seq<nat>, tenant: nat, run: nat, facts: seq<Fact>,
      coverage: map<nat, Assessment>, es: seq<Verified>, wording: Wording)
    requires UniqueIds(es) && Survives(claims, ps)
    requires forall f :: f in facts ==>
      f.id in coverage && coverage[f.id] == Assess(tenant, run, f.id, f.highValue, es)
    requires ProposedAt(ps, facts, at, coverage, ById(es), wording)
    ensures OneForEach(claims, facts, at, tenant, run, es, wording)
  {
    hide Assess, ById, FallbackIds, FallbackProposal, MadeFor, Backed, SameClaim, UniqueIds;
    forall i | 0 <= i < |at| ensures at[i] < |facts| && MadeFor(claims[i], facts[at[i]], tenant, run, es, wording) {
      assert facts[at[i]] in facts && SameClaim(claims[i], ps[i]);
      ClaimIsMadeFor(claims[i], facts[at[i]], tenant, run, coverage, es, wording);
    }
    forall n: nat | n < |facts| && n !in at ensures !Backed(es, tenant, run, facts[n].id, Supports) {
      assert facts[n] in facts;
      FallbackCites(tenant, run, facts[n], coverage, es);
    }
  }

  /** The deterministic answer makes one claim, in the order of the facts, for each fact with accepted supporting
      evidence, and none for any other. */
  lemma FallbackAnswersEach(tenant: nat, run: nat, facts: seq<Fact>, es: seq<Verified>, wording: Wording)
    returns (at: seq<nat>)
    requires UniqueFacts(facts) && UniqueIds(es)
    requires forall f :: f in facts ==> f.id in CoverageOf(facts, tenant, run, es)
    requires Deterministic(tenant, run, facts, CoverageOf(facts, tenant, run, es), es, wording).Some?
    ensures OneForEach(Deterministic(tenant, run, facts, CoverageOf(facts, tenant, run, es), es, wording).value.claims,
                       facts, at, tenant, run, es, wording)
  {
    hide CoverageOf, FallbackProposals, Deterministic, Assess, ById, OneForEach, ProposedAt, WellWorded, Survives;
    hide UniqueIds, UniqueFacts;
    var coverage := CoverageOf(facts, tenant, run, es);
    var ps := FallbackProposals(facts, coverage, ById(es), wording);
    CoverageIsExact(facts, tenant, run, es);
    DeterministicFailsIff(tenant, run, facts, es, wording);
    at := FallbackInOrder(facts, coverage, ById(es), wording);
    AnsweredInOrder(Deterministic(tenant, run, facts, coverage, es, wording).value.claims, ps, at, tenant, run, facts,
      coverage, es, wording);
  }
}
