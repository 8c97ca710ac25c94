/** Which facts the accepted evidence covers, and how well. */
module Coverage {
  import opened Wrappers
  import opened Evidence

  datatype Status = Open | Covered | VerifiedFact | Partial

  datatype Assessment = Assessment(
    tenant: nat, run: nat, fact: nat, status: Status, ids: seq<nat>, supporting: seq<nat>,
    contradicting: seq<nat>, upgrade: bool)

  predicate Counts(e: Verified, tenant: nat, run: nat, fact: nat) {
    e.accepted && e.candidate.tenant == tenant && e.candidate.run == run && e.candidate.fact == fact
  }

  function Ids(es: seq<Verified>): (ids: seq<nat>)
    ensures |ids| == |es| && forall i :: 0 <= i < |es| ==> ids[i] == es[i].id
  {
    seq(|es|, i requires 0 <= i < |es| => es[i].id)
  }

  predicate UniqueIds(es: seq<Verified>) {
    forall i, j :: 0 <= i < j < |es| ==> es[i].id != es[j].id
  }

  /** The evidence that counts for a fact, the first of each identifier, in order. */
  ghost function Accepted(es: seq<Verified>, tenant: nat, run: nat, fact: nat): seq<Verified> {
    if es == [] then []
    else
      var before, e := Accepted(es[..|es| - 1], tenant, run, fact), es[|es| - 1];
      if Counts(e, tenant, run, fact) && e.id !in Ids(before) then before + [e] else before
  }

  function Facing(es: seq<Verified>, d: Direction): seq<Verified> {
    if es == [] then []
    else Facing(es[..|es| - 1], d) + if es[|es| - 1].candidate.direction == d then [es[|es| - 1]] else []
  }

  function IndependentSources(es: seq<Verified>): set<string> {
    set i | 0 <= i < |es| && es[i].candidate.source.authority == Independent :: es[i].candidate.source.identity
  }

  predicate HasOfficial(es: seq<Verified>) {
    exists i :: 0 <= i < |es| && es[i].candidate.source.authority == Official
  }

  /** An official source, or two independent ones. */
  predicate WellSourced(es: seq<Verified>) {
    HasOfficial(es) || |IndependentSources(es)| >= 2
  }

  ghost function Assess(tenant: nat, run: nat, fact: nat, highValue: bool, es: seq<Verified>): Assessment {
    Judge(tenant, run, fact, highValue, Accepted(es, tenant, run, fact))
  }

  function Judge(tenant: nat, run: nat, fact: nat, highValue: bool, accepted: seq<Verified>): Assessment {
    var pro, contra := Facing(accepted, Supports), Facing(accepted, Contradicts);
    if pro != [] && contra != [] then
      Assessment(tenant, run, fact, Partial, Ids(accepted), Ids(pro), Ids(contra), highValue)
    else if accepted == [] then
      Assessment(tenant, run, fact, Open, [], [], [], false)
    else
      var status := if WellSourced(accepted) then VerifiedFact else Covered;
      Assessment(tenant, run, fact, status, Ids(accepted), Ids(pro), Ids(contra), false)
  }

  method Evaluate(tenant: nat, run: nat, fact: nat, highValue: bool, es: seq<Verified>) returns (a: Assessment)
    ensures a == Assess(tenant, run, fact, highValue, es)
  {
    var accepted: seq<Verified>, ids: set<nat> := [], {};
    for n := 0 to |es|
      invariant accepted == Accepted(es[..n], tenant, run, fact)
      invariant forall id :: id in ids <==> id in Ids(accepted)
    {
      assert es[..n + 1][..n] == es[..n];
      if Counts(es[n], tenant, run, fact) && es[n].id !in ids {
        assert Ids(accepted + [es[n]]) == Ids(accepted) + [es[n].id];
        accepted, ids := accepted + [es[n]], ids + {es[n].id};
      }
    }
    assert es[..|es|] == es;
    a := Judge(tenant, run, fact, highValue, accepted);
  }

  // ---------------------------------------------------------------- what an assessment means

  lemma {:induction false} AcceptedIsExact(es: seq<Verified>, tenant: nat, run: nat, fact: nat)
    ensures UniqueIds(Accepted(es, tenant, run, fact))
    ensures forall e :: e in Accepted(es, tenant, run, fact) ==> e in es && Counts(e, tenant, run, fact)
    ensures UniqueIds(es) ==>
      forall e :: e in es && Counts(e, tenant, run, fact) ==> e in Accepted(es, tenant, run, fact)
  {
    if es != [] {
      var init, e := es[..|es| - 1], es[|es| - 1];
      AcceptedIsExact(init, tenant, run, fact);
      assert es == init + [e];
      var before := Accepted(init, tenant, run, fact);
      if UniqueIds(es) {
        forall i | 0 <= i < |before| ensures before[i].id != e.id {
          assert before[i] in init;
          var j :| 0 <= j < |init| && init[j] == before[i];
          assert es[j].id == before[i].id;
        }
      }
    }
  }

  lemma {:induction false} FacingIsExact(es: seq<Verified>, d: Direction)
    ensures forall e :: e in Facing(es, d) <==> e in es && e.candidate.direction == d
    ensures UniqueIds(es) ==> UniqueIds(Facing(es, d))
  {
    if es != [] {
      assert es == es[..|es| - 1] + [es[|es| - 1]];
      FacingIsExact(es[..|es| - 1], d);
      var before := Facing(es[..|es| - 1], d);
      if UniqueIds(es) {
        forall i | 0 <= i < |before| ensures before[i].id != es[|es| - 1].id {
          assert before[i] in es[..|es| - 1];
        }
      }
    }
  }

  lemma InIds(es: seq<Verified>, id: nat)
    ensures id in Ids(es) <==> exists e :: e in es && e.id == id
  {
    if id in Ids(es) {
      var i :| 0 <= i < |es| && Ids(es)[i] == id;
      assert es[i] in es;
    }
    if e :| e in es && e.id == id {
      var i :| 0 <= i < |es| && es[i] == e;
      assert Ids(es)[i] == id;
    }
  }

  /** Some evidence that counts for the fact points this way. */
  predicate Backed(es: seq<Verified>, tenant: nat, run: nat, fact: nat, d: Direction) {
    exists e :: e in es && Counts(e, tenant, run, fact) && e.candidate.direction == d
  }

  /** Independent sources of two different identities. */
  predicate Apart(d: Verified, e: Verified) {
    && d.candidate.source.authority == Independent && e.candidate.source.authority == Independent
    && d.candidate.source.identity != e.candidate.source.identity
  }

  /** Some evidence that counts for the fact comes from an official source. */
  predicate OfficiallyBacked(es: seq<Verified>, tenant: nat, run: nat, fact: nat) {
    exists e :: e in es && Counts(e, tenant, run, fact) && e.candidate.source.authority == Official
  }

  /** Two independent sources have evidence that counts for the fact. */
  predicate TwiceBacked(es: seq<Verified>, tenant: nat, run: nat, fact: nat) {
    exists d, e :: d in es && e in es && Counts(d, tenant, run, fact) && Counts(e, tenant, run, fact) && Apart(d, e)
  }

  lemma OfficialMeans(es: seq<Verified>)
    ensures HasOfficial(es) <==> exists e :: e in es && e.candidate.source.authority == Official
  {
    if HasOfficial(es) {
      var i :| 0 <= i < |es| && es[i].candidate.source.authority == Official;
      assert es[i] in es;
    }
  }

  lemma TwoSourcesMean(es: seq<Verified>)
    ensures |IndependentSources(es)| >= 2 <==> exists d, e :: d in es && e in es && Apart(d, e)
  {
    var ids := IndependentSources(es);
    if d, e :| d in es && e in es && Apart(d, e) {
      var i :| 0 <= i < |es| && es[i] == d;
      var j :| 0 <= j < |es| && es[j] == e;
      assert es[i].candidate.source.authority == Independent && es[j].candidate.source.authority == Independent;
      Smaller({d.candidate.source.identity, e.candidate.source.identity}, ids);
    }
    if |ids| >= 2 {
      var x :| x in ids;
      assert ids == {x} + (ids - {x});
      var y :| y in ids - {x};
      var i :| 0 <= i < |es| && es[i].candidate.source.authority == Independent && es[i].candidate.source.identity == x;
      var j :| 0 <= j < |es| && es[j].candidate.source.authority == Independent && es[j].candidate.source.identity == y;
      assert Apart(es[i], es[j]);
    }
  }

  lemma AcceptedIsWellSourced(es: seq<Verified>, tenant: nat, run: nat, fact: nat)
    requires UniqueIds(es)
    ensures WellSourced(Accepted(es, tenant, run, fact)) <==>
            OfficiallyBacked(es, tenant, run, fact) || TwiceBacked(es, tenant, run, fact)
  {
    AcceptedIsExact(es, tenant, run, fact);
    OfficialMeans(Accepted(es, tenant, run, fact));
    TwoSourcesMean(Accepted(es, tenant, run, fact));
    hide Accepted, HasOfficial, IndependentSources;
  }

  /** Evidence that counts for the fact points this way exactly if it is listed on that side. */
  lemma SidesAreBacked(tenant: nat, run: nat, fact: nat, es: seq<Verified>, d: Direction)
    requires UniqueIds(es)
    ensures Facing(Accepted(es, tenant, run, fact), d) != [] <==> Backed(es, tenant, run, fact, d)
    ensures Backed(es, tenant, run, fact, d) ==> Accepted(es, tenant, run, fact) != []
  {
    var accepted := Accepted(es, tenant, run, fact);
    AcceptedIsExact(es, tenant, run, fact);
    FacingIsExact(accepted, d);
    hide Accepted, Facing;
    var side := Facing(accepted, d);
    if side != [] {
      assert side[0] in es;
    }
  }

  lemma SomeSide(es: seq<Verified>)
    requires es != []
    ensures Facing(es, Supports) != [] || Facing(es, Contradicts) != []
  {
  }

  /** The status says which ways the evidence points: both ways is a visible conflict, none is open, and
      otherwise the fact is verified if an official source or two independent ones back it. */
  lemma AssessmentMeans(tenant: nat, run: nat, fact: nat, highValue: bool, es: seq<Verified>)
    requires UniqueIds(es)
    ensures var a, pro, contra := Assess(tenant, run, fact, highValue, es),
        Backed(es, tenant, run, fact, Supports), Backed(es, tenant, run, fact, Contradicts);
      && (a.status == Partial <==> pro && contra)
      && (a.status == Open <==> !pro && !contra)
      && (a.status == VerifiedFact <==>
            pro != contra && (OfficiallyBacked(es, tenant, run, fact) || TwiceBacked(es, tenant, run, fact)))
      && (a.supporting != [] <==> pro)
      && (a.contradicting != [] <==> contra)
      && (a.upgrade <==> pro && contra && highValue)
      && a.tenant == tenant && a.run == run && a.fact == fact
  {
    var accepted := Accepted(es, tenant, run, fact);
    SidesAreBacked(tenant, run, fact, es, Supports);
    SidesAreBacked(tenant, run, fact, es, Contradicts);
    AcceptedIsWellSourced(es, tenant, run, fact);
    if accepted != [] { SomeSide(accepted); }
    hide Accepted, Facing, WellSourced, OfficiallyBacked, TwiceBacked, Backed;
  }

  /** The three lists of identifiers are exactly those of the evidence that counts. */
  lemma AssessmentLists(tenant: nat, run: nat, fact: nat, highValue: bool, es: seq<Verified>, id: nat)
    requires UniqueIds(es)
    ensures var a := Assess(tenant, run, fact, highValue, es);
      && (id in a.ids <==> exists e :: e in es && e.id == id && Counts(e, tenant, run, fact))
      && (id in a.supporting <==>
            exists e :: e in es && e.id == id && Counts(e, tenant, run, fact) && e.candidate.direction == Supports)
      && (id in a.contradicting <==>
            exists e :: e in es && e.id == id && Counts(e, tenant, run, fact) && e.candidate.direction == Contradicts)
  {
    var accepted := Accepted(es, tenant, run, fact);
    AcceptedIsExact(es, tenant, run, fact);
    FacingIsExact(accepted, Supports);
    FacingIsExact(accepted, Contradicts);
    InIds(accepted, id);
    InIds(Facing(accepted, Supports), id);
    InIds(Facing(accepted, Contradicts), id);
    hide Accepted;
    if accepted == [] {
      assert Facing(accepted, Supports) == [] && Facing(accepted, Contradicts) == [];
    }
  }
}
