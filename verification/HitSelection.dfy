/** The selection step: merging the discovered hits into candidates, and the loops that choose
    among the ranked candidates. */
module HitSelection {
  import opened Wrappers
  import opened Selection
  import opened FastSelection

  // ---------------------------------------------------------------- merging hits

  /** One hit of a provider; `score` stands for its place in the order of the scores. */
  datatype Hit = Hit(url: nat, fact: nat, score: int, direct: bool)

  datatype Response = Response(failed: bool, hits: seq<Hit>)

  ghost function AllHits(rs: seq<Response>): seq<Hit> {
    if rs == [] then [] else AllHits(rs[..|rs| - 1]) + rs[|rs| - 1].hits
  }

  ghost function Failures(rs: seq<Response>): nat {
    if rs == [] then 0 else Failures(rs[..|rs| - 1]) + if rs[|rs| - 1].failed then 1 else 0
  }

  /** The addresses, in order of first appearance. */
  ghost function Order(hs: seq<Hit>): seq<nat> {
    if hs == [] then []
    else
      var before, u := Order(hs[..|hs| - 1]), hs[|hs| - 1].url;
      if u in before then before else before + [u]
  }

  /** The facts of one address, in order of first appearance. */
  ghost function FactList(hs: seq<Hit>, u: nat): seq<nat> {
    if hs == [] then []
    else
      var before, h := FactList(hs[..|hs| - 1], u), hs[|hs| - 1];
      if h.url != u || h.fact in before then before else before + [h.fact]
  }

  /** The hit that represents an address: a later one replaces it only with a higher score. */
  ghost function Best(hs: seq<Hit>, u: nat): Option<Hit> {
    if hs == [] then None
    else
      var before, h := Best(hs[..|hs| - 1], u), hs[|hs| - 1];
      if h.url != u then before
      else if before.None? || h.score > before.value.score then Some(h)
      else before
  }

  ghost predicate Merged(hs: seq<Hit>, order: seq<nat>, best: map<nat, Hit>, facts: map<nat, seq<nat>>) {
    && order == Order(hs)
    && (forall u :: u in best <==> u in order)
    && (forall u :: u in facts <==> u in order)
    && (forall u :: u in order ==> Best(hs, u) == Some(best[u]))
    && (forall u :: u in order ==> FactList(hs, u) == facts[u])
  }

  lemma {:induction false} Unseen(hs: seq<Hit>, u: nat)
    requires u !in Order(hs)
    ensures Best(hs, u) == None && FactList(hs, u) == []
  {
    if hs != [] {
      Unseen(hs[..|hs| - 1], u);
    }
  }

  method MergeHit(h: Hit, order: seq<nat>, best: map<nat, Hit>, facts: map<nat, seq<nat>>, ghost before: seq<Hit>)
    returns (order': seq<nat>, best': map<nat, Hit>, facts': map<nat, seq<nat>>)
    requires Merged(before, order, best, facts)
    ensures Merged(before + [h], order', best', facts')
  {
    assert (before + [h])[..|before|] == before;
    if h.url !in best {
      Unseen(before, h.url);
      order', best', facts' := order + [h.url], best[h.url := h], facts[h.url := [h.fact]];
    } else {
      var factIds := facts[h.url];
      if h.fact !in factIds {
        factIds := factIds + [h.fact];
      }
      order', best', facts' := order, best, facts[h.url := factIds];
      if h.score > best[h.url].score {
        best' := best[h.url := h];
      }
    }
  }

  lemma NothingMerged()
    ensures Merged(AllHits([]), [], map[], map[]) && Failures([]) == 0
  {
  }

  lemma OneMoreResponse(rs: seq<Response>, n: nat)
    requires n < |rs|
    ensures AllHits(rs[..n + 1]) == AllHits(rs[..n]) + rs[n].hits
    ensures AllHits(rs[..n]) + rs[n].hits[..0] == AllHits(rs[..n])
    ensures Failures(rs[..n + 1]) == Failures(rs[..n]) + if rs[n].failed then 1 else 0
  {
    assert rs[..n + 1][..n] == rs[..n];
  }

  /** The merge of every hit of every response, and the number of failed responses. */
  method Merge(rs: seq<Response>)
    returns (order: seq<nat>, best: map<nat, Hit>, facts: map<nat, seq<nat>>, failures: nat)
    ensures Merged(AllHits(rs), order, best, facts)
    ensures failures == Failures(rs)
  {
    order, best, facts, failures := [], map[], map[], 0;
    NothingMerged();
    hide Merged, AllHits, Failures;
    for n := 0 to |rs|
      invariant Merged(AllHits(rs[..n]), order, best, facts)
      invariant failures == Failures(rs[..n])
    {
      OneMoreResponse(rs, n);
      if rs[n].failed {
        failures := failures + 1;
      }
      var hits := rs[n].hits;
      ghost var before := AllHits(rs[..n]);
      for m := 0 to |hits|
        invariant Merged(before + hits[..m], order, best, facts)
      {
        assert before + hits[..m + 1] == before + hits[..m] + [hits[m]];
        order, best, facts := MergeHit(hits[m], order, best, facts, before + hits[..m]);
      }
      assert hits[..|hits|] == hits;
    }
    assert rs[..|rs|] == rs;
  }

  /** Where the hits of response `n` start among all hits. */
  ghost function Offset(rs: seq<Response>, n: nat): nat
    requires n <= |rs|
  {
    if n == 0 then 0 else Offset(rs, n - 1) + |rs[n - 1].hits|
  }

  lemma {:induction false} SameOffset(rs: seq<Response>, n: nat)
    requires n < |rs|
    ensures Offset(rs, n) == Offset(rs[..|rs| - 1], n)
  {
    if n > 0 {
      SameOffset(rs, n - 1);
    }
  }

  /** Hit `m` of response `n` is merged at its place. */
  ghost predicate InTurn(rs: seq<Response>, n: nat, m: nat)
    requires n < |rs| && m < |rs[n].hits|
  {
    Offset(rs, n) + m < |AllHits(rs)| && AllHits(rs)[Offset(rs, n) + m] == rs[n].hits[m]
  }

  /** The hits of all responses are merged, those of failed ones too, response by response. */
  lemma {:induction false} HitsInTurn(rs: seq<Response>)
    ensures |AllHits(rs)| == Offset(rs, |rs|)
    ensures forall n: nat, m: nat :: n < |rs| && m < |rs[n].hits| ==> InTurn(rs, n, m)
  {
    if rs != [] {
      var init := rs[..|rs| - 1];
      HitsInTurn(init);
      SameOffset(rs, |init|);
      forall n: nat, m: nat | n < |rs| && m < |rs[n].hits| ensures InTurn(rs, n, m) {
        SameOffset(rs, n);
        if n < |init| {
          assert InTurn(init, n, m);
        }
      }
    }
  }

  /** Every failed response counts once. */
  lemma {:induction false} FailuresCount(rs: seq<Response>)
    ensures Failures(rs) == |FailedAt(rs)|
  {
    if rs == [] {
      assert FailedAt(rs) == {};
    } else {
      var init, n := rs[..|rs| - 1], |rs| - 1;
      FailuresCount(init);
      assert forall i :: 0 <= i < n ==> init[i] == rs[i];
      assert FailedAt(rs) == FailedAt(init) + if rs[n].failed then {n} else {};
      assert n !in FailedAt(init);
    }
  }

  ghost function FailedAt(rs: seq<Response>): set<int> {
    set n | 0 <= n < |rs| && rs[n].failed
  }

  /** Some hit of address `u` comes before every hit of address `v`. */
  ghost predicate SeenBefore(hs: seq<Hit>, u: nat, v: nat) {
    exists k :: 0 <= k < |hs| && hs[k].url == u && forall l :: 0 <= l <= k ==> hs[l].url != v
  }

  /** The addresses are listed in the order in which they first appear. */
  lemma {:induction false} OrderIsByFirstHit(hs: seq<Hit>)
    ensures forall i, j :: 0 <= i < j < |Order(hs)| ==> SeenBefore(hs, Order(hs)[i], Order(hs)[j])
  {
    if hs != [] {
      var init, n := hs[..|hs| - 1], |hs| - 1;
      var before := Order(init);
      OrderIsByFirstHit(init);
      OrderIsExact(init);
      forall i, j | 0 <= i < j < |Order(hs)| ensures SeenBefore(hs, Order(hs)[i], Order(hs)[j]) {
        var u, v := Order(hs)[i], Order(hs)[j];
        assert u == before[i] && u in before;
        if j < |before| {
          var k :| 0 <= k < |init| && init[k].url == u && forall l :: 0 <= l <= k ==> init[l].url != v;
          assert hs[k].url == u && forall l :: 0 <= l <= k ==> hs[l] == init[l];
        } else {
          var k :| 0 <= k < |init| && init[k].url == u;
          assert hs[k].url == u && forall l :: 0 <= l <= k ==> hs[l] == init[l] && init[l].url in before;
        }
      }
    }
  }

  /** Each address of a hit is listed once. */
  lemma {:induction false} OrderIsExact(hs: seq<Hit>)
    ensures forall u :: u in Order(hs) <==> exists i :: 0 <= i < |hs| && hs[i].url == u
    ensures forall i, j :: 0 <= i < j < |Order(hs)| ==> Order(hs)[i] != Order(hs)[j]
  {
    if hs != [] {
      var init := hs[..|hs| - 1];
      OrderIsExact(init);
      forall u | u in Order(hs) ensures exists i :: 0 <= i < |hs| && hs[i].url == u {
        if u in Order(init) {
          var i :| 0 <= i < |init| && init[i].url == u;
          assert hs[i].url == u;
        } else {
          assert hs[|hs| - 1].url == u;
        }
      }
      forall i | 0 <= i < |hs| ensures hs[i].url in Order(hs) {
        assert i < |init| ==> init[i] == hs[i];
      }
    }
  }

  /** An address keeps exactly the facts its hits were found for, each once. */
  lemma {:induction false} FactListIsExact(hs: seq<Hit>, u: nat)
    ensures forall f :: f in FactList(hs, u) <==> exists i :: 0 <= i < |hs| && hs[i].url == u && hs[i].fact == f
    ensures forall i, j :: 0 <= i < j < |FactList(hs, u)| ==> FactList(hs, u)[i] != FactList(hs, u)[j]
  {
    if hs != [] {
      var init := hs[..|hs| - 1];
      FactListIsExact(init, u);
      forall f | f in FactList(hs, u) ensures exists i :: 0 <= i < |hs| && hs[i].url == u && hs[i].fact == f {
        if f in FactList(init, u) {
          var i :| 0 <= i < |init| && init[i].url == u && init[i].fact == f;
          assert hs[i].url == u;
        } else {
          assert hs[|hs| - 1].url == u && hs[|hs| - 1].fact == f;
        }
      }
      forall i | 0 <= i < |hs| && hs[i].url == u ensures hs[i].fact in FactList(hs, u) {
        assert i < |init| ==> init[i] == hs[i];
      }
    }
  }

  /** Some hit of the address for fact `f` comes before every one for fact `g`. */
  ghost predicate FoundBefore(hs: seq<Hit>, u: nat, f: nat, g: nat) {
    exists k :: 0 <= k < |hs| && hs[k].url == u && hs[k].fact == f
                && forall l :: 0 <= l <= k && hs[l].url == u ==> hs[l].fact != g
  }

  /** An address lists its facts in the order in which they were first found there. */
  lemma {:induction false} FactsByFirstHit(hs: seq<Hit>, u: nat)
    ensures forall i, j :: 0 <= i < j < |FactList(hs, u)| ==> FoundBefore(hs, u, FactList(hs, u)[i], FactList(hs, u)[j])
  {
    if hs != [] {
      var init, n := hs[..|hs| - 1], |hs| - 1;
      var before := FactList(init, u);
      FactsByFirstHit(init, u);
      FactListIsExact(init, u);
      forall i, j | 0 <= i < j < |FactList(hs, u)| ensures FoundBefore(hs, u, FactList(hs, u)[i], FactList(hs, u)[j]) {
        var f, g := FactList(hs, u)[i], FactList(hs, u)[j];
        assert f == before[i] && f in before;
        if j < |before| {
          var k :| 0 <= k < |init| && init[k].url == u && init[k].fact == f
                   && forall l :: 0 <= l <= k && init[l].url == u ==> init[l].fact != g;
          assert hs[k] == init[k] && forall l :: 0 <= l <= k ==> hs[l] == init[l];
        } else {
          var k :| 0 <= k < |init| && init[k].url == u && init[k].fact == f;
          assert hs[k] == init[k];
          assert forall l :: 0 <= l <= k && hs[l].url == u ==> hs[l] == init[l] && init[l].fact in before;
        }
      }
    }
  }

  ghost predicate FirstOfHighest(hs: seq<Hit>, u: nat, i: nat) {
    && i < |hs| && hs[i].url == u
    && forall j :: 0 <= j < |hs| && hs[j].url == u ==>
         hs[j].score <= hs[i].score && (j < i ==> hs[j].score < hs[i].score)
  }

  /** The representative is the earliest of the hits with the highest score. */
  lemma {:induction false} BestIsFirstOfHighest(hs: seq<Hit>, u: nat) returns (i: nat)
    requires u in Order(hs)
    ensures FirstOfHighest(hs, u, i) && Best(hs, u) == Some(hs[i])
  {
    var init, n := hs[..|hs| - 1], |hs| - 1;
    OrderIsExact(init);
    if u !in Order(init) {
      Unseen(init, u);
      i := n;
      forall j | 0 <= j < n ensures hs[j].url in Order(init) {
        assert init[j].url == hs[j].url;
      }
    } else {
      i := BestIsFirstOfHighest(init, u);
      assert forall j :: 0 <= j < n ==> init[j] == hs[j];
      if hs[n].url == u && hs[n].score > hs[i].score {
        i := n;
      }
    }
  }

  // ---------------------------------------------------------------- from hits to pages

  /** The candidate page of an address; `authority` gives its publisher and whether it is
      official. */
  ghost function PageOf(hs: seq<Hit>, authority: nat -> (nat, bool), u: nat): Page
    requires Best(hs, u).Some?
  {
    Page(u, (set f | f in FactList(hs, u)), authority(u).0, authority(u).1, Best(hs, u).value.direct)
  }

  ghost predicate Candidates(hs: seq<Hit>, authority: nat -> (nat, bool), ranked: seq<Page>) {
    && |ranked| == |Order(hs)|
    && DistinctUrls(ranked)
    && forall p :: p in ranked <==> p.url in Order(hs) && Best(hs, p.url).Some? && p == PageOf(hs, authority, p.url)
  }

  /** A candidate page has the facts all hits of its address were found for, and the source of the earliest
      of those with the highest score; every address of a hit has one. */
  lemma CandidateSays(hs: seq<Hit>, authority: nat -> (nat, bool), ranked: seq<Page>, p: Page) returns (i: nat)
    requires Candidates(hs, authority, ranked) && p in ranked
    ensures FirstOfHighest(hs, p.url, i) && p.direct == hs[i].direct
    ensures p.publisher == authority(p.url).0 && p.official == authority(p.url).1
    ensures forall f :: f in p.facts <==> exists j :: 0 <= j < |hs| && hs[j].url == p.url && hs[j].fact == f
    ensures forall j :: 0 <= j < |hs| ==> exists q :: q in ranked && q.url == hs[j].url
  {
    OrderIsExact(hs);
    i := BestIsFirstOfHighest(hs, p.url);
    FactListIsExact(hs, p.url);
    forall j | 0 <= j < |hs| ensures exists q :: q in ranked && q.url == hs[j].url {
      var u := hs[j].url;
      assert u in Order(hs);
      var b := BestIsFirstOfHighest(hs, u);
      assert PageOf(hs, authority, u) in ranked;
    }
  }

  /** The targets of the research choice are exactly the facts some hit was found for. */
  lemma TargetsAreDiscovered(hs: seq<Hit>, authority: nat -> (nat, bool), ranked: seq<Page>)
    requires Candidates(hs, authority, ranked)
    ensures forall f :: f in Facts(ranked) <==> exists i :: 0 <= i < |hs| && hs[i].fact == f
  {
    OrderIsExact(hs);
    forall f | f in Facts(ranked) ensures exists i :: 0 <= i < |hs| && hs[i].fact == f {
      var k :| 0 <= k < |ranked| && f in ranked[k].facts;
      assert ranked[k] in ranked;
      FactListIsExact(hs, ranked[k].url);
    }
    forall i | 0 <= i < |hs| ensures hs[i].fact in Facts(ranked) {
      var u := hs[i].url;
      assert u in Order(hs);
      FactListIsExact(hs, u);
      var b := BestIsFirstOfHighest(hs, u);
      assert PageOf(hs, authority, u) in ranked;
      InFacts(ranked, PageOf(hs, authority, u));
    }
  }

  /** From discovery to selection: with as many slots as there are discovered facts, every fact
      any provider returned a hit for is covered by a selected page. */
  lemma SelectionCoversDiscovery(
      hs: seq<Hit>, authority: nat -> (nat, bool), ranked: seq<Page>, limit: nat, out: seq<Page>, i: nat)
    requires Candidates(hs, authority, ranked) && ResearchChoice(ranked, limit, out)
    requires limit >= |set h | h in hs :: h.fact| && i < |hs|
    ensures exists p :: p in out && p in ranked && hs[i].fact in p.facts
  {
    hide Candidates, ResearchChoice;
    TargetsAreDiscovered(hs, authority, ranked);
    var found := set h | h in hs :: h.fact;
    assert Facts(ranked) <= found;
    Smaller(Facts(ranked), found);
    ResearchCovers(ranked, limit, out);
    assert hs[i].fact in Facts(ranked);
    assert hs[i].fact in Facts(out);
    var k :| 0 <= k < |out| && hs[i].fact in out[k].facts;
    assert out[k] in multiset(out);
    assert out[k] in out && out[k] in ranked;
  }

  // ---------------------------------------------------------------- the loops

  predicate BetterGain(ps: seq<Page>, covered: set<nat>, seen: set<nat>, i: nat, j: nat)
    requires i < |ps| && j < |ps|
  {
    || Gain(ps[j], covered) < Gain(ps[i], covered)
    || (Gain(ps[j], covered) == Gain(ps[i], covered) && TieLe(ps, seen, i, j))
  }

  method BestGain(ps: seq<Page>, covered: set<nat>, seen: set<nat>) returns (some: bool, best: nat)
    ensures some == SomeGain(ps, covered)
    ensures some ==> Chosen(ps, covered, seen, best)
  {
    var trusted := false;
    some, best := false, 0;
    for n := 0 to |ps|
      invariant some <==> exists i :: 0 <= i < n && Gain(ps[i], covered) > 0
      invariant trusted <==> exists i :: 0 <= i < n && Gain(ps[i], covered) > 0 && Trusted(ps[i])
    {
      if Gain(ps[n], covered) > 0 {
        some, trusted := true, trusted || Trusted(ps[n]);
      }
    }
    if some {
      PoolIsThere(ps, covered);
      best := BestInPool(ps, covered, seen, trusted);
    }
  }

  lemma PoolIsThere(ps: seq<Page>, covered: set<nat>)
    requires SomeGain(ps, covered)
    ensures exists i :: 0 <= i < |ps| && InPool(ps, covered, i)
  {
    if SomeTrustedGain(ps, covered) {
      var i :| 0 <= i < |ps| && Gain(ps[i], covered) > 0 && Trusted(ps[i]);
      assert InPool(ps, covered, i);
    } else {
      var i :| 0 <= i < |ps| && Gain(ps[i], covered) > 0;
      assert InPool(ps, covered, i);
    }
  }

  lemma BetterTrans(ps: seq<Page>, covered: set<nat>, seen: set<nat>, i: nat, n: nat, j: nat)
    requires i < n < |ps| && j < |ps|
    requires !BetterGain(ps, covered, seen, i, n) && BetterGain(ps, covered, seen, i, j)
    ensures BetterGain(ps, covered, seen, n, j)
  {
  }

  lemma IdleTrans(ps: seq<Page>, seen: set<nat>, i: nat, n: nat, j: nat)
    requires i < n < |ps| && j < |ps|
    requires !IdleLe(ps, seen, i, n) && IdleLe(ps, seen, i, j)
    ensures IdleLe(ps, seen, n, j)
  {
  }

  method BestInPool(ps: seq<Page>, covered: set<nat>, seen: set<nat>, trusted: bool) returns (best: nat)
    requires SomeGain(ps, covered) && trusted == SomeTrustedGain(ps, covered)
    requires exists i :: 0 <= i < |ps| && InPool(ps, covered, i)
    ensures Chosen(ps, covered, seen, best)
  {
    hide SomeGain, SomeTrustedGain, TieLe;
    var found := false;
    best := 0;
    for n := 0 to |ps|
      invariant found ==> best < n && InPool(ps, covered, best)
      invariant forall j :: 0 <= j < n && InPool(ps, covered, j) ==> found && BetterGain(ps, covered, seen, best, j)
    {
      if Gain(ps[n], covered) > 0 && (trusted ==> Trusted(ps[n])) {
        if !found {
          best := n;
          BetterSelf(ps, covered, seen, n);
        } else if !BetterGain(ps, covered, seen, best, n) {
          forall j | 0 <= j < n && InPool(ps, covered, j) ensures BetterGain(ps, covered, seen, n, j) {
            BetterTrans(ps, covered, seen, best, n, j);
          }
          best := n;
          BetterSelf(ps, covered, seen, n);
        }
        found := true;
      }
    }
  }

  lemma BetterSelf(ps: seq<Page>, covered: set<nat>, seen: set<nat>, i: nat)
    requires i < |ps|
    ensures BetterGain(ps, covered, seen, i, i)
  {
  }

  method BestIdle(ps: seq<Page>, covered: set<nat>, seen: set<nat>) returns (best: nat)
    requires ps != [] && !SomeGain(ps, covered)
    ensures Chosen(ps, covered, seen, best)
  {
    best := 0;
    for n := 1 to |ps|
      invariant best < n
      invariant forall j :: 0 <= j < n ==> IdleLe(ps, seen, best, j)
    {
      if !IdleLe(ps, seen, best, n) {
        forall j | 0 <= j < n ensures IdleLe(ps, seen, n, j) {
          IdleTrans(ps, seen, best, n, j);
        }
        best := n;
      }
    }
  }

  method ComputeFacts(ps: seq<Page>) returns (target: set<nat>)
    ensures target == Facts(ps)
  {
    target := {};
    NoFacts();
    for n := 0 to |ps|
      invariant target == Facts(ps[..n])
    {
      target := target + ps[n].facts;
      assert ps[..n + 1] == ps[..n] + [ps[n]];
      LastFacts(ps[..n], ps[n]);
    }
    assert ps[..|ps|] == ps;
  }

  lemma LastFacts(init: seq<Page>, last: Page)
    ensures Facts(init + [last]) == Facts(init) + last.facts
  {
    var all := init + [last];
    WithoutFacts(all, |init|);
    assert Without(all, |init|) == init;
  }

  /** The research loop. */
  method SelectResearch(ranked: seq<Page>, limit: nat) returns (selected: seq<Page>)
    ensures ResearchChoice(ranked, limit, selected)
  {
    hide Chosen, SomeGain, Facts, Publishers, Picks;
    var remaining := ranked;
    var target := ComputeFacts(ranked);
    var covered: set<nat>, seen: set<nat> := {}, {};
    selected := [];
    assert forall rest: seq<Page> :: selected + rest == rest;
    while remaining != [] && |selected| < limit
      invariant |selected| <= limit
      invariant forall rest :: Picks(target, remaining, covered, seen, limit - |selected|, rest) ==>
                  Picks(target, ranked, {}, {}, limit, selected + rest)
      decreases |remaining|
    {
      var some, i := BestGain(remaining, covered, seen);
      if !some {
        i := BestIdle(remaining, covered, seen);
      }
      ChosenIndex(remaining, covered, seen, i);
      var page, before, rest := remaining[i], selected, Without(remaining, i);
      var unseen := AnyUnseen(rest, seen + {page.publisher});
      PickFirst(target, remaining, covered, seen, limit - |selected|, i);
      Shorter(remaining, i);
      if target != {} && target <= covered + page.facts && (|seen + {page.publisher}| >= 2 || !unseen) {
        return selected + [page];
      }
      remaining, selected := rest, selected + [page];
      seen, covered := seen + {page.publisher}, covered + page.facts;
      forall rest | Picks(target, remaining, covered, seen, limit - |selected|, rest)
        ensures Picks(target, ranked, {}, {}, limit, selected + rest)
      {
        assert selected + rest == before + ([page] + rest);
      }
    }
    PicksNothing(target, remaining, covered, seen, limit - |selected|);
    assert selected + [] == selected;
  }

  lemma ChosenIndex(ps: seq<Page>, covered: set<nat>, seen: set<nat>, i: nat)
    requires Chosen(ps, covered, seen, i)
    ensures i < |ps|
  {
  }

  lemma PicksNothing(target: set<nat>, ps: seq<Page>, covered: set<nat>, seen: set<nat>, room: nat)
    requires ps == [] || room == 0
    ensures Picks(target, ps, covered, seen, room, [])
  {
  }

  method AnyUnseen(ps: seq<Page>, seen: set<nat>) returns (any: bool)
    ensures any == !(Publishers(ps) <= seen)
  {
    any := false;
    for n := 0 to |ps|
      invariant any <==> exists i :: 0 <= i < n && ps[i].publisher !in seen
    {
      any := any || ps[n].publisher !in seen;
    }
  }

  /** A pick followed by a run of the loop from the state it leaves is a run of the loop. */
  lemma PickFirst(target: set<nat>, ps: seq<Page>, covered: set<nat>, seen: set<nat>, room: nat, i: nat)
    requires room > 0 && i < |ps| && Chosen(ps, covered, seen, i)
    ensures
      var rest, covered', seen' := Without(ps, i), covered + ps[i].facts, seen + {ps[i].publisher};
      if Enough(target, rest, covered', seen') then Picks(target, ps, covered, seen, room, [ps[i]])
      else forall out :: Picks(target, rest, covered', seen', room - 1, out) ==>
             Picks(target, ps, covered, seen, room, [ps[i]] + out)
  {
    hide Chosen, Enough, Without;
    var rest, covered', seen' := Without(ps, i), covered + ps[i].facts, seen + {ps[i].publisher};
    if Enough(target, rest, covered', seen') {
      assert Continues(target, ps, covered, seen, room, [ps[i]], i);
    } else {
      forall out | Picks(target, rest, covered', seen', room - 1, out)
        ensures Picks(target, ps, covered, seen, room, [ps[i]] + out)
      {
        assert ([ps[i]] + out)[1..] == out;
        assert Continues(target, ps, covered, seen, room, [ps[i]] + out, i);
      }
    }
  }

  /** The loop over the trusted pages. */
  method SelectByGain(trusted: seq<Page>, limit: nat) returns (selected: seq<Page>)
    ensures ByGain(trusted, {}, limit, selected)
  {
    hide ByGain;
    var remaining, covered: set<nat> := trusted, {};
    selected := [];
    assert forall rest: seq<Page> :: selected + rest == rest;
    while remaining != [] && |selected| < limit
      invariant |selected| <= limit
      invariant forall rest :: ByGain(remaining, covered, limit - |selected|, rest) ==>
                  ByGain(trusted, {}, limit, selected + rest)
      decreases |remaining|
    {
      var i := LargestGain(remaining, covered);
      var page, before := remaining[i], selected;
      GainFirst(remaining, covered, limit - |selected|, i);
      Shorter(remaining, i);
      remaining, selected, covered := Without(remaining, i), selected + [page], covered + page.facts;
      forall rest | ByGain(remaining, covered, limit - |selected|, rest)
        ensures ByGain(trusted, {}, limit, selected + rest)
      {
        assert selected + rest == before + ([page] + rest);
      }
    }
    GainNothing(remaining, covered, limit - |selected|);
    assert selected + [] == selected;
  }

  method LargestGain(ps: seq<Page>, covered: set<nat>) returns (best: nat)
    requires ps != []
    ensures Largest(ps, covered, best)
  {
    best := 0;
    for n := 1 to |ps|
      invariant best < n
      invariant forall j :: 0 <= j < n ==>
        Gain(ps[j], covered) < Gain(ps[best], covered) || (Gain(ps[j], covered) == Gain(ps[best], covered) && best <= j)
    {
      if Gain(ps[n], covered) > Gain(ps[best], covered) {
        best := n;
      }
    }
  }

  lemma GainNothing(ps: seq<Page>, covered: set<nat>, room: nat)
    requires ps == [] || room == 0
    ensures ByGain(ps, covered, room, [])
  {
  }

  lemma GainFirst(ps: seq<Page>, covered: set<nat>, room: nat, i: nat)
    requires room > 0 && i < |ps| && Largest(ps, covered, i)
    ensures forall out :: ByGain(Without(ps, i), covered + ps[i].facts, room - 1, out) ==>
              ByGain(ps, covered, room, [ps[i]] + out)
  {
    hide Largest, Without;
    forall out | ByGain(Without(ps, i), covered + ps[i].facts, room - 1, out)
      ensures ByGain(ps, covered, room, [ps[i]] + out)
    {
      assert ([ps[i]] + out)[1..] == out;
    }
  }

  /** The loop that defers every page of a publisher already seen. */
  method SelectDiverse(ranked: seq<Page>, limit: nat) returns (selected: seq<Page>)
    ensures selected == Diverse(ranked, limit)
  {
    var diverse, deferred: seq<Page>, seen: set<nat> := [], [], {};
    NoFacts();
    for n := 0 to |ranked|
      invariant diverse == FirstOfEach(ranked[..n]) && deferred == Repeats(ranked[..n])
      invariant seen == Publishers(ranked[..n])
    {
      assert ranked[..n + 1][..n] == ranked[..n] && ranked[..n + 1] == ranked[..n] + [ranked[n]];
      LastPublisher(ranked[..n], ranked[n]);
      if ranked[n].publisher in seen {
        deferred := deferred + [ranked[n]];
      } else {
        diverse := diverse + [ranked[n]];
        seen := seen + {ranked[n].publisher};
      }
    }
    assert ranked[..|ranked|] == ranked;
    selected := (diverse + deferred)[..Min(limit, |diverse + deferred|)];
  }

  /** The selection step proper. */
  method SelectRanked(ranked: seq<Page>, fast: bool, limit: nat) returns (selected: seq<Page>)
    ensures if fast then FastChoice(ranked, limit, selected) else ResearchChoice(ranked, limit, selected)
  {
    if fast {
      var official, trusted: seq<Page>, urls: set<nat> := false, [], {};
      for n := 0 to |ranked|
        invariant official <==> exists i :: 0 <= i < n && ranked[i].official
        invariant trusted == TrustedOnly(ranked[..n]) && urls == Urls(trusted)
      {
        assert ranked[..n + 1][..n] == ranked[..n];
        official := official || ranked[n].official;
        if Trusted(ranked[n]) {
          LastUrl(trusted, ranked[n]);
          trusted, urls := trusted + [ranked[n]], urls + {ranked[n].url};
        }
      }
      assert ranked[..|ranked|] == ranked;
      if |urls| >= 2 {
        selected := SelectByGain(trusted, Min(limit, 2));
      } else {
        selected := SelectDiverse(ranked, Min(limit, if official then 1 else 2));
      }
    } else {
      selected := SelectResearch(ranked, limit);
    }
  }

  lemma LastUrl(init: seq<Page>, last: Page)
    ensures Urls(init + [last]) == Urls(init) + {last.url}
  {
    var all := init + [last];
    forall u | u in Urls(init) + {last.url} ensures u in Urls(all) {
      if u == last.url {
        assert all[|init|].url == u;
      } else {
        var i :| 0 <= i < |init| && init[i].url == u;
        assert all[i].url == u;
      }
    }
  }
}
