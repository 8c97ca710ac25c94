/** The selection and synthesis steps make payloads of the kind the workflow's joins rely on. */
module WorkflowHandlers {
  import opened Wrappers
  import opened WorkflowModel
  import opened WorkflowJoins
  import opened WorkflowLineage
  import S = Selection
  import FS = FastSelection
  import H = HitSelection
  import E = Evidence
  import N = Completeness
  import Q = AnswerQuality

  function AsHit(p: S.Page): Hit {
    Hit(p.url, p.direct, p.facts)
  }

  function AsHits(ps: seq<S.Page>): (hits: seq<Hit>)
    ensures |hits| == |ps| && forall i :: 0 <= i < |ps| ==> hits[i] == AsHit(ps[i])
  {
    seq(|ps|, i requires 0 <= i < |ps| => AsHit(ps[i]))
  }

  /** The selection step never lists a page twice: candidates are kept by address, and each is
      chosen at most once. */
  lemma SelectionIsProduced(
      input: Artifact, hs: seq<H.Hit>, authority: nat -> (nat, bool), ranked: seq<S.Page>, fast: bool, limit: nat,
      out: seq<S.Page>, tag: nat, failures: nat)
    requires H.Candidates(hs, authority, ranked)
    requires if fast then FS.FastChoice(ranked, limit, out) else S.ResearchChoice(ranked, limit, out)
    ensures Produced(input, Select, Selection(tag, AsHits(out), failures))
  {
    assert S.DistinctUrls(ranked);
    hide H.Candidates, FS.FastChoice, S.ResearchChoice;
    if fast {
      FS.FastIsDistinct(ranked, limit, out);
    } else {
      S.ResearchCovers(ranked, limit, out);
    }
    forall i, j | 0 <= i < j < |out| ensures AsHits(out)[i] != AsHits(out)[j] {
      assert out[i].url != out[j].url;
    }
  }

  /** The synthesis step calls no answer complete when its input carries a degradation code, since
      a code makes it degraded. */
  lemma AnswerIsProduced(
      input: Artifact, o: Option<Q.Outcome>, tenant: nat, run: nat, facts: seq<N.Fact>, es: seq<E.Verified>,
      degraded: bool, wording: N.Wording, tag: nat, reason: StopReason)
    requires N.UniqueFacts(facts)
    requires Q.OutcomeIs(o, tenant, run, facts, es, degraded, wording) && o.Some?
    requires input.SynthesisInput? && (input.codes != {} ==> degraded)
    ensures Produced(input, Synthesize, Answer(tag, if o.value.complete then Complete else Partial, reason))
  {
    hide Q.OutcomeIs, N.UniqueFacts;
    Q.CompleteIsNotDegraded(o, tenant, run, facts, es, degraded, wording);
  }
}
