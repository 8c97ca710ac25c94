/** The choice of pages in fast mode: two trusted pages by gain when there are two, and
    otherwise the best-ranked page of each publisher before any second page. */
module FastSelection {
  import opened Wrappers
  import opened Selection

  // ---------------------------------------------------------------- two trusted pages

  ghost predicate Largest(ps: seq<Page>, covered: set<nat>, i: nat) {
    && i < |ps|
    && forall j :: 0 <= j < |ps| ==>
         Gain(ps[j], covered) < Gain(ps[i], covered) || (Gain(ps[j], covered) == Gain(ps[i], covered) && i <= j)
  }

  /** `out` is what taking the page of largest gain, again and again, yields. */
  ghost predicate ByGain(ps: seq<Page>, covered: set<nat>, room: nat, out: seq<Page>)
    decreases |ps|
  {
    if ps == [] || room == 0 then out == []
    else
      && out != []
      && exists i: nat ::
           && Largest(ps, covered, i)
           && out[0] == ps[i]
           && ByGain(Without(ps, i), covered + ps[i].facts, room - 1, out[1..])
  }

  lemma FirstByGain(ps: seq<Page>, covered: set<nat>, room: nat, out: seq<Page>) returns (i: nat)
    requires ps != [] && room > 0 && ByGain(ps, covered, room, out)
    ensures Largest(ps, covered, i) && out != [] && out[0] == ps[i]
    ensures ByGain(Without(ps, i), covered + ps[i].facts, room - 1, out[1..])
  {
    i :| Largest(ps, covered, i) && out[0] == ps[i]
      && ByGain(Without(ps, i), covered + ps[i].facts, room - 1, out[1..]);
  }

  lemma {:induction false} ByGainIsDistinct(ps: seq<Page>, covered: set<nat>, room: nat, out: seq<Page>)
    requires ByGain(ps, covered, room, out)
    ensures |out| == Min(room, |ps|) && multiset(out) <= multiset(ps)
    decreases |ps|
  {
    hide Largest, Without, ByGain;
    if ps == [] || room == 0 {
      NoneByGain(ps, covered, room, out);
    } else {
      var i := FirstByGain(ps, covered, room, out);
      Shorter(ps, i);
      WithoutAll(ps, i);
      FirstFacts(out);
      assert multiset(out) == multiset{ps[i]} + multiset(out[1..]);
      ByGainIsDistinct(Without(ps, i), covered + ps[i].facts, room - 1, out[1..]);
    }
  }

  lemma NoneByGain(ps: seq<Page>, covered: set<nat>, room: nat, out: seq<Page>)
    requires (ps == [] || room == 0) && ByGain(ps, covered, room, out)
    ensures out == []
  {
  }

  lemma TwoPicks(ps: seq<Page>, out: seq<Page>) returns (i: nat, k: nat)
    requires |ps| >= 2 && ByGain(ps, {}, 2, out)
    ensures Largest(ps, {}, i) && Largest(Without(ps, i), ps[i].facts, k)
    ensures out == [ps[i], Without(ps, i)[k]]
  {
    hide ByGain, Largest;
    i := FirstByGain(ps, {}, 2, out);
    assert {} + ps[i].facts == ps[i].facts;
    k := FirstByGain(Without(ps, i), ps[i].facts, 1, out[1..]);
    NoneByGain(Without(Without(ps, i), k), ps[i].facts + Without(ps, i)[k].facts, 0, out[1..][1..]);
  }

  lemma LargestMeans(ps: seq<Page>, covered: set<nat>, i: nat, p: Page)
    requires Largest(ps, covered, i) && (p in ps || p.facts <= covered)
    ensures Gain(p, covered) <= Gain(ps[i], covered)
  {
    if p.facts <= covered {
      assert p.facts - covered == {};
    } else {
      var j :| 0 <= j < |ps| && ps[j] == p;
    }
  }

  lemma NoneLarger(ps: seq<Page>, i: nat, k: nat, p: Page)
    requires Largest(ps, {}, i) && Largest(Without(ps, i), ps[i].facts, k) && p in ps
    ensures |p.facts| <= |ps[i].facts|
    ensures |p.facts - ps[i].facts| <= |Without(ps, i)[k].facts - ps[i].facts|
  {
    WithoutAll(ps, i);
    assert p.facts - {} == p.facts && ps[i].facts - {} == ps[i].facts;
    LargestMeans(ps, {}, i, p);
    LargestMeans(Without(ps, i), ps[i].facts, k, p);
  }

  /** The two picks: the largest page, then the page that adds most to it. */
  lemma TwoByGain(ps: seq<Page>, out: seq<Page>) returns (a: Page, b: Page)
    requires |ps| >= 2 && ByGain(ps, {}, 2, out)
    ensures out == [a, b] && Facts(out) == a.facts + b.facts
    ensures forall p :: p in ps ==> |p.facts| <= |a.facts|
    ensures forall p :: p in ps ==> |p.facts - a.facts| <= |b.facts - a.facts|
  {
    var i, k := TwoPicks(ps, out);
    WithoutAll(ps, i);
    a, b := ps[i], Without(ps, i)[k];
    hide ByGain, Facts, Largest, Without;
    FactsStep(a, [b]);
    FactsStep(b, []);
    NoFacts();
    assert out == [a] + [b] && [b] + [] == [b];
    forall p | p in ps ensures |p.facts| <= |a.facts| && |p.facts - a.facts| <= |b.facts - a.facts| {
      NoneLarger(ps, i, k, p);
    }
  }

  /** The two picks cover at least three quarters of what the best two of the pages cover. */
  lemma PairIsThreeQuarters(ps: seq<Page>, out: seq<Page>, x: Page, y: Page)
    requires |ps| >= 2 && ByGain(ps, {}, 2, out) && x in ps && y in ps
    ensures 4 * |Facts(out)| >= 3 * |x.facts + y.facts|
  {
    hide ByGain, Facts;
    var a, b := TwoByGain(ps, out);
    assert a.facts + b.facts == a.facts + (b.facts - a.facts);
    CardAdd(x.facts + y.facts, x.facts, y.facts);
    CardAdd((x.facts + y.facts) - a.facts, x.facts - a.facts, y.facts - a.facts);
    CardAdd(x.facts + y.facts, a.facts, (x.facts + y.facts) - a.facts);
  }

  // ---------------------------------------------------------------- one page a publisher first

  /** The best-ranked page of every publisher, in order of rank. */
  ghost function FirstOfEach(ps: seq<Page>): seq<Page> {
    if ps == [] then []
    else
      var init, last := ps[..|ps| - 1], ps[|ps| - 1];
      if last.publisher in Publishers(init) then FirstOfEach(init) else FirstOfEach(init) + [last]
  }

  /** The other pages, in order of rank. */
  ghost function Repeats(ps: seq<Page>): seq<Page> {
    if ps == [] then []
    else
      var init, last := ps[..|ps| - 1], ps[|ps| - 1];
      if last.publisher in Publishers(init) then Repeats(init) + [last] else Repeats(init)
  }

  predicate DistinctPublishers(ps: seq<Page>) {
    forall i, j :: 0 <= i < j < |ps| ==> ps[i].publisher != ps[j].publisher
  }

  lemma LastPublisher(init: seq<Page>, last: Page)
    ensures Publishers(init + [last]) == Publishers(init) + {last.publisher}
  {
    var all := init + [last];
    forall b | b in Publishers(init) + {last.publisher} ensures b in Publishers(all) {
      if b == last.publisher {
        assert all[|init|].publisher == b;
      } else {
        var i :| 0 <= i < |init| && init[i].publisher == b;
        assert all[i].publisher == b;
      }
    }
  }

  /** The split keeps every page once. */
  lemma {:induction false} SplitKeepsAll(ps: seq<Page>)
    ensures multiset(FirstOfEach(ps)) + multiset(Repeats(ps)) == multiset(ps)
    ensures |FirstOfEach(ps)| + |Repeats(ps)| == |ps|
  {
    hide Publishers;
    if ps != [] {
      SplitKeepsAll(ps[..|ps| - 1]);
      assert ps == ps[..|ps| - 1] + [ps[|ps| - 1]];
    }
  }

  /** Its first part has each publisher exactly once, and starts with the best-ranked page. */
  lemma {:induction false} SplitByPublisher(ps: seq<Page>)
    ensures DistinctPublishers(FirstOfEach(ps))
    ensures Publishers(FirstOfEach(ps)) == Publishers(ps)
    ensures ps != [] ==> FirstOfEach(ps) != [] && FirstOfEach(ps)[0] == ps[0]
  {
    hide Publishers;
    if ps == [] {
    } else {
      var init, last := ps[..|ps| - 1], ps[|ps| - 1];
      SplitByPublisher(init);
      assert ps == init + [last];
      LastPublisher(init, last);
      LastPublisher(FirstOfEach(init), last);
      var f := FirstOfEach(init);
      forall i | 0 <= i < |f| ensures f[i].publisher in Publishers(init) {
        PublisherIn(f, i);
      }
      if init == [] {
        NoFacts();
      }
    }
  }

  lemma PublisherIn(ps: seq<Page>, i: nat)
    requires i < |ps|
    ensures ps[i].publisher in Publishers(ps)
  {
  }

  lemma {:induction false} CountPublishers(ps: seq<Page>)
    requires DistinctPublishers(ps)
    ensures |Publishers(ps)| == |ps|
  {
    if ps == [] {
      assert Publishers(ps) == {};
    } else {
      var init, last := ps[..|ps| - 1], ps[|ps| - 1];
      assert ps == init + [last];
      CountPublishers(init);
      LastPublisher(init, last);
      assert last.publisher !in Publishers(init);
    }
  }

  ghost function Diverse(ranked: seq<Page>, limit: nat): seq<Page> {
    (FirstOfEach(ranked) + Repeats(ranked))[..Min(limit, |FirstOfEach(ranked) + Repeats(ranked)|)]
  }

  /** As many publishers as the limit and the candidates allow, each page at most once, the
      best-ranked page first, and no slot left empty while a page remains. */
  lemma DiverseIsDiverse(ranked: seq<Page>, limit: nat)
    ensures var out := Diverse(ranked, limit);
      && |out| == Min(limit, |ranked|)
      && multiset(out) <= multiset(ranked)
      && |Publishers(out)| == Min(limit, |Publishers(ranked)|)
      && (out != [] ==> out[0] == ranked[0])
  {
    var f, r := FirstOfEach(ranked), Repeats(ranked);
    var out := Diverse(ranked, limit);
    SplitByPublisher(ranked);
    SplitKeepsAll(ranked);
    hide FirstOfEach, Repeats, Publishers;
    assert f + r == out + (f + r)[|out|..];
    assert multiset(f + r) == multiset(f) + multiset(r);
    assert multiset(out) <= multiset(f + r);
    assert Publishers(f + r) == Publishers(ranked) by {
      SameBagSamePublishers(f + r, ranked);
      SameBagSamePublishers(ranked, f + r);
    }
    CountDiverse(f, r, limit);
  }

  lemma CountDiverse(f: seq<Page>, r: seq<Page>, limit: nat)
    requires DistinctPublishers(f) && Publishers(f) == Publishers(f + r)
    ensures |Publishers((f + r)[..Min(limit, |f + r|)])| == Min(limit, |Publishers(f + r)|)
  {
    hide Publishers;
    var out := (f + r)[..Min(limit, |f + r|)];
    CountPublishers(f);
    if limit <= |f| {
      assert out == f[..limit];
      CountPublishers(out);
    } else {
      PrefixPublishers(f, r, |out|);
      assert Publishers(out) == Publishers(f);
    }
  }

  lemma PrefixPublishers(f: seq<Page>, r: seq<Page>, n: nat)
    requires |f| <= n <= |f + r|
    ensures Publishers(f) <= Publishers((f + r)[..n]) <= Publishers(f + r)
  {
    forall b | b in Publishers(f) ensures b in Publishers((f + r)[..n]) {
      var i :| 0 <= i < |f| && f[i].publisher == b;
      assert (f + r)[..n][i] == f[i];
    }
  }

  // ---------------------------------------------------------------- the fast choice

  ghost function TrustedOnly(ps: seq<Page>): seq<Page> {
    if ps == [] then []
    else TrustedOnly(ps[..|ps| - 1]) + if Trusted(ps[|ps| - 1]) then [ps[|ps| - 1]] else []
  }

  ghost function Urls(ps: seq<Page>): set<nat> {
    set i | 0 <= i < |ps| :: ps[i].url
  }

  ghost predicate SomeOfficial(ps: seq<Page>) {
    exists i :: 0 <= i < |ps| && ps[i].official
  }

  ghost predicate FastChoice(ranked: seq<Page>, limit: nat, out: seq<Page>) {
    if |Urls(TrustedOnly(ranked))| >= 2 then ByGain(TrustedOnly(ranked), {}, Min(limit, 2), out)
    else out == Diverse(ranked, Min(limit, if SomeOfficial(ranked) then 1 else 2))
  }

  /** What the ranking puts first, whatever the scores: official pages, and among those the
      ones of a direct provider. */
  predicate AuthorityFirst(ps: seq<Page>) {
    forall i, j :: 0 <= i < j < |ps| ==>
      (ps[j].official ==> ps[i].official) && (Trusted(ps[j]) ==> Trusted(ps[i]))
  }

  lemma {:induction false} TrustedOnlyIs(ps: seq<Page>)
    ensures forall p :: p in TrustedOnly(ps) <==> p in ps && Trusted(p)
    ensures multiset(TrustedOnly(ps)) <= multiset(ps)
    ensures |TrustedOnly(ps)| >= |Urls(TrustedOnly(ps))|
  {
    if ps == [] {
    } else {
      assert ps == ps[..|ps| - 1] + [ps[|ps| - 1]];
      TrustedOnlyIs(ps[..|ps| - 1]);
    }
    FewUrls(TrustedOnly(ps));
  }

  lemma {:induction false} FewUrls(ps: seq<Page>)
    ensures |Urls(ps)| <= |ps|
  {
    if ps == [] {
      assert Urls(ps) == {};
    } else {
      var init := ps[..|ps| - 1];
      FewUrls(init);
      assert Urls(ps) <= Urls(init) + {ps[|ps| - 1].url};
      Smaller(Urls(ps), Urls(init) + {ps[|ps| - 1].url});
    }
  }

  /** Fast mode takes pages from the list, each at most as often as it is there. */
  lemma FastIsDistinct(ranked: seq<Page>, limit: nat, out: seq<Page>)
    requires FastChoice(ranked, limit, out)
    ensures |out| <= Min(limit, 2) && multiset(out) <= multiset(ranked)
    ensures DistinctUrls(ranked) ==> DistinctUrls(out)
  {
    hide ByGain, Diverse, TrustedOnly, Publishers;
    var trusted := TrustedOnly(ranked);
    TrustedOnlyIs(ranked);
    if |Urls(trusted)| >= 2 {
      ByGainIsDistinct(trusted, {}, Min(limit, 2), out);
    } else {
      DiverseIsDiverse(ranked, Min(limit, if SomeOfficial(ranked) then 1 else 2));
    }
    if DistinctUrls(ranked) {
      ChoiceIsDistinct(ranked, out);
    }
  }

  /** Fast mode chooses at most two pages, never the same one twice. Given an official page it
      chooses only official pages, and given a trusted page only trusted ones; without an
      official page it chooses two publishers if there are two. */
  lemma FastIsAuthoritative(ranked: seq<Page>, limit: nat, out: seq<Page>)
    requires FastChoice(ranked, limit, out) && AuthorityFirst(ranked)
    ensures |out| <= Min(limit, 2) && multiset(out) <= multiset(ranked)
    ensures DistinctUrls(ranked) ==> DistinctUrls(out)
    ensures ranked != [] && limit > 0 ==> out != []
    ensures SomeOfficial(ranked) ==> forall p :: p in out ==> p.official
    ensures (exists p :: p in ranked && Trusted(p)) ==> forall p :: p in out ==> Trusted(p)
    ensures !SomeOfficial(ranked) && limit >= 2 ==> |Publishers(out)| == Min(2, |Publishers(ranked)|)
  {
    hide ByGain, Diverse, TrustedOnly, Publishers;
    var trusted := TrustedOnly(ranked);
    TrustedOnlyIs(ranked);
    if |Urls(trusted)| >= 2 {
      ByGainIsDistinct(trusted, {}, Min(limit, 2), out);
      assert trusted[0] in ranked && Trusted(trusted[0]);
      forall p | p in out ensures Trusted(p) {
        assert p in multiset(out);
        assert p in trusted;
      }
    } else {
      DiverseIsDiverse(ranked, Min(limit, if SomeOfficial(ranked) then 1 else 2));
    }
    FastIsDistinct(ranked, limit, out);
  }

  /** With two trusted pages and two slots, fast mode covers at least three quarters of what
      any two of the trusted pages cover. */
  lemma FastPairIsGood(ranked: seq<Page>, limit: nat, out: seq<Page>, x: Page, y: Page)
    requires FastChoice(ranked, limit, out) && limit >= 2
    requires x in ranked && y in ranked && Trusted(x) && Trusted(y) && x.url != y.url
    ensures |out| == 2 && 4 * |Facts(out)| >= 3 * |x.facts + y.facts|
  {
    hide ByGain, Diverse, TrustedOnly, Facts;
    var trusted := TrustedOnly(ranked);
    TrustedOnlyIs(ranked);
    var i :| 0 <= i < |trusted| && trusted[i] == x;
    var j :| 0 <= j < |trusted| && trusted[j] == y;
    assert {x.url, y.url} <= Urls(trusted);
    Smaller({x.url, y.url}, Urls(trusted));
    PairIsThreeQuarters(trusted, out, x, y);
    ByGainIsDistinct(trusted, {}, 2, out);
  }
}
