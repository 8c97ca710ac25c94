/** Choosing which discovered pages to fetch: a bounded set cover.

    The candidate list arrives ranked; the ranking compares floating-point scores, and
    nothing below depends on it, so every theorem holds for every order. */
module Selection {
  import opened Wrappers

  /** A candidate page: the planned facts its discovery queries were for, its publisher, and
      whether it is official and comes from a direct (reviewed) provider. */
  datatype Page = Page(url: nat, facts: set<nat>, publisher: nat, official: bool, direct: bool)

  predicate Trusted(p: Page) {
    p.official && p.direct
  }

  function Gain(p: Page, covered: set<nat>): nat {
    |p.facts - covered|
  }

  /** The facts some page of `ps` was found for. */
  ghost function Facts(ps: seq<Page>): set<nat> {
    set i, f | 0 <= i < |ps| && f in ps[i].facts :: f
  }

  ghost function Publishers(ps: seq<Page>): set<nat> {
    set i | 0 <= i < |ps| :: ps[i].publisher
  }

  function Without<T>(xs: seq<T>, i: nat): seq<T>
    requires i < |xs|
  {
    xs[..i] + xs[i + 1..]
  }

  // ---------------------------------------------------------------- the research choice

  ghost predicate SomeGain(ps: seq<Page>, covered: set<nat>) {
    exists i :: 0 <= i < |ps| && Gain(ps[i], covered) > 0
  }

  ghost predicate SomeTrustedGain(ps: seq<Page>, covered: set<nat>) {
    exists i :: 0 <= i < |ps| && Gain(ps[i], covered) > 0 && Trusted(ps[i])
  }

  /** Pages that may be chosen while something is still to gain: trusted ones first. */
  ghost predicate InPool(ps: seq<Page>, covered: set<nat>, i: nat)
    requires i < |ps|
  {
    Gain(ps[i], covered) > 0 && (SomeTrustedGain(ps, covered) ==> Trusted(ps[i]))
  }

  function Rank(b: bool): nat {
    if b then 0 else 1
  }

  /** Fewer facts first, then official, then a new publisher, then the ranking. */
  predicate TieLe(ps: seq<Page>, seen: set<nat>, i: nat, j: nat)
    requires i < |ps| && j < |ps|
  {
    var fi, fj := |ps[i].facts|, |ps[j].facts|;
    var oi, oj := Rank(ps[i].official), Rank(ps[j].official);
    var si, sj := Rank(ps[i].publisher !in seen), Rank(ps[j].publisher !in seen);
    fi < fj || (fi == fj && (oi < oj || (oi == oj && (si < sj || (si == sj && i <= j)))))
  }

  /** With nothing to gain: a new publisher first, then official, then the ranking. */
  predicate IdleLe(ps: seq<Page>, seen: set<nat>, i: nat, j: nat)
    requires i < |ps| && j < |ps|
  {
    var oi, oj := Rank(ps[i].official), Rank(ps[j].official);
    var si, sj := Rank(ps[i].publisher !in seen), Rank(ps[j].publisher !in seen);
    si < sj || (si == sj && (oi < oj || (oi == oj && i <= j)))
  }

  ghost predicate Chosen(ps: seq<Page>, covered: set<nat>, seen: set<nat>, i: nat) {
    && i < |ps|
    && if SomeGain(ps, covered) then
         && InPool(ps, covered, i)
         && (forall j :: 0 <= j < |ps| && InPool(ps, covered, j) ==> Gain(ps[j], covered) <= Gain(ps[i], covered))
         && (forall j :: 0 <= j < |ps| && InPool(ps, covered, j) && Gain(ps[j], covered) == Gain(ps[i], covered) ==>
               TieLe(ps, seen, i, j))
       else
         forall j :: 0 <= j < |ps| ==> IdleLe(ps, seen, i, j)
  }

  /** The loop stops early once every target is covered and either two publishers are chosen
      or no page of a new publisher is left. */
  ghost predicate Enough(target: set<nat>, rest: seq<Page>, covered: set<nat>, seen: set<nat>) {
    target != {} && target <= covered && (|seen| >= 2 || Publishers(rest) <= seen)
  }

  /** `out` is what the research loop picks, in order, from this state on. */
  ghost predicate Picks(target: set<nat>, ps: seq<Page>, covered: set<nat>, seen: set<nat>, room: nat, out: seq<Page>)
    decreases |ps|
  {
    if ps == [] || room == 0 then out == []
    else
      out != [] &&
      exists i: nat :: Chosen(ps, covered, seen, i) && i < |ps| && out[0] == ps[i] && Continues(target, ps, covered, seen, room, out, i)
  }

  ghost predicate Continues(
      target: set<nat>, ps: seq<Page>, covered: set<nat>, seen: set<nat>, room: nat, out: seq<Page>, i: nat)
    requires i < |ps| && room > 0 && out != []
    decreases |ps|, 0
  {
    var rest, covered', seen' := Without(ps, i), covered + ps[i].facts, seen + {ps[i].publisher};
    if Enough(target, rest, covered', seen') then |out| == 1
    else Picks(target, rest, covered', seen', room - 1, out[1..])
  }

  // ---------------------------------------------------------------- sets and lists

  lemma NoFacts()
    ensures Facts([]) == {} && Publishers([]) == {}
  {
  }

  lemma {:induction false} FactsStep(p: Page, ps: seq<Page>)
    ensures Facts([p] + ps) == p.facts + Facts(ps)
    ensures Publishers([p] + ps) == {p.publisher} + Publishers(ps)
  {
    var all := [p] + ps;
    forall f | f in p.facts + Facts(ps) ensures f in Facts(all) {
      if f in p.facts {
        assert f in all[0].facts;
      } else {
        var i :| 0 <= i < |ps| && f in ps[i].facts;
        assert f in all[i + 1].facts;
      }
    }
    forall b | b in {p.publisher} + Publishers(ps) ensures b in Publishers(all) {
      if b == p.publisher {
        assert all[0].publisher == b;
      } else {
        var i :| 0 <= i < |ps| && ps[i].publisher == b;
        assert all[i + 1].publisher == b;
      }
    }
  }

  lemma WithoutAll<T>(xs: seq<T>, i: nat)
    requires i < |xs|
    ensures multiset(xs) == multiset(Without(xs, i)) + multiset{xs[i]}
    ensures forall x :: x in xs <==> x == xs[i] || x in Without(xs, i)
  {
    assert xs == xs[..i] + [xs[i]] + xs[i + 1..];
  }

  lemma Shorter<T>(xs: seq<T>, i: nat)
    requires i < |xs|
    ensures |Without(xs, i)| == |xs| - 1
  {
  }

  lemma WithoutFacts(ps: seq<Page>, i: nat)
    requires i < |ps|
    ensures Facts(ps) == Facts(Without(ps, i)) + ps[i].facts
    ensures Publishers(ps) == Publishers(Without(ps, i)) + {ps[i].publisher}
  {
    WithoutAll(ps, i);
    var rest := Without(ps, i);
    forall f | f in Facts(ps) ensures f in Facts(rest) + ps[i].facts {
      var j :| 0 <= j < |ps| && f in ps[j].facts;
      assert ps[j] in ps;
    }
    forall f | f in Facts(rest) ensures f in Facts(ps) {
      var j :| 0 <= j < |rest| && f in rest[j].facts;
      assert rest[j] in rest;
    }
    forall b | b in Publishers(ps) ensures b in Publishers(rest) + {ps[i].publisher} {
      var j :| 0 <= j < |ps| && b == ps[j].publisher;
      assert ps[j] in ps;
    }
    forall b | b in Publishers(rest) ensures b in Publishers(ps) {
      var j :| 0 <= j < |rest| && b == rest[j].publisher;
      assert rest[j] in rest;
    }
  }

  // ---------------------------------------------------------------- the research loop

  /** The pick a run of the loop starts with, and what it does afterwards. */
  lemma FirstPick(target: set<nat>, ps: seq<Page>, covered: set<nat>, seen: set<nat>, room: nat, out: seq<Page>)
    returns (i: nat)
    requires ps != [] && room > 0 && Picks(target, ps, covered, seen, room, out)
    ensures Chosen(ps, covered, seen, i) && i < |ps| && out != [] && out[0] == ps[i]
    ensures
      var rest, covered', seen' := Without(ps, i), covered + ps[i].facts, seen + {ps[i].publisher};
      if Enough(target, rest, covered', seen') then |out| == 1
      else Picks(target, rest, covered', seen', room - 1, out[1..])
  {
    hide Chosen, Enough, Without;
    i :| Chosen(ps, covered, seen, i) && i < |ps| && out[0] == ps[i] && Continues(target, ps, covered, seen, room, out, i);
  }

  lemma FirstFacts(out: seq<Page>)
    requires out != []
    ensures out == [out[0]] + out[1..]
    ensures Facts(out) == out[0].facts + Facts(out[1..])
    ensures Publishers(out) == {out[0].publisher} + Publishers(out[1..])
  {
    assert out == [out[0]] + out[1..];
    FactsStep(out[0], out[1..]);
  }

  lemma PrefixFacts(out: seq<Page>, k: nat, covered: set<nat>)
    requires 0 < k <= |out|
    ensures covered + Facts(out[..k]) == (covered + out[0].facts) + Facts(out[1..][..k - 1])
  {
    assert out[..k] == [out[0]] + out[1..][..k - 1];
    FactsStep(out[0], out[1..][..k - 1]);
  }

  lemma NothingPicked(target: set<nat>, ps: seq<Page>, covered: set<nat>, seen: set<nat>, room: nat, out: seq<Page>)
    requires (ps == [] || room == 0) && Picks(target, ps, covered, seen, room, out)
    ensures out == [] && Facts(out) == {} && Publishers(out) == {}
  {
  }

  /** The loop takes pages from the list, each at most as often as it is there, never more than
      the limit, and stops short of both the limit and the end only once every target is
      covered. */
  lemma {:induction false} PicksAreDistinct(
      target: set<nat>, ps: seq<Page>, covered: set<nat>, seen: set<nat>, room: nat, out: seq<Page>)
    requires Picks(target, ps, covered, seen, room, out)
    ensures |out| <= room && multiset(out) <= multiset(ps)
    ensures |out| == room || multiset(out) == multiset(ps) || target <= covered + Facts(out)
    decreases |ps|
  {
    hide Picks, Chosen;
    if ps == [] || room == 0 {
      NothingPicked(target, ps, covered, seen, room, out);
    } else {
      var i := FirstPick(target, ps, covered, seen, room, out);
      FirstFacts(out);
      var rest := Without(ps, i);
      WithoutAll(ps, i);
      assert multiset(out) == multiset{ps[i]} + multiset(out[1..]) by {
        assert out == [out[0]] + out[1..];
      }
      if Enough(target, rest, covered + ps[i].facts, seen + {ps[i].publisher}) {
        assert out[1..] == [];
      } else {
        PicksAreDistinct(target, rest, covered + ps[i].facts, seen + {ps[i].publisher}, room - 1, out[1..]);
      }
    }
  }

  /** While a target is uncovered, the loop has a page to gain from and picks one. */
  lemma ChosenGains(target: set<nat>, ps: seq<Page>, covered: set<nat>, seen: set<nat>, i: nat)
    requires Chosen(ps, covered, seen, i)
    requires target <= covered + Facts(ps) && !(target <= covered)
    ensures Gain(ps[i], covered) > 0
  {
    var f :| f in target && f !in covered;
    var j :| 0 <= j < |ps| && f in ps[j].facts;
    assert f in ps[j].facts - covered;
    assert Gain(ps[j], covered) > 0;
  }

  /** With every target covered and one publisher so far, the next page is a new publisher's. */
  lemma ChosenIsNew(target: set<nat>, ps: seq<Page>, covered: set<nat>, seen: set<nat>, i: nat)
    requires Chosen(ps, covered, seen, i)
    requires Facts(ps) <= covered && !(Publishers(ps) <= seen)
    ensures ps[i].publisher !in seen
  {
    var b :| b in Publishers(ps) && b !in seen;
    var j :| 0 <= j < |ps| && ps[j].publisher == b;
    forall k | 0 <= k < |ps| ensures Gain(ps[k], covered) == 0 {
      assert ps[k].facts <= Facts(ps);
      assert ps[k].facts - covered == {};
    }
    assert IdleLe(ps, seen, i, j);
  }

  /** No slot goes to a page that covers nothing new while a target is uncovered. */
  lemma {:induction false} NoWastedPick(
      target: set<nat>, ps: seq<Page>, covered: set<nat>, seen: set<nat>, room: nat, out: seq<Page>, k: nat)
    requires Picks(target, ps, covered, seen, room, out)
    requires target <= covered + Facts(ps)
    requires k < |out| && !(target <= covered + Facts(out[..k]))
    ensures Gain(out[k], covered + Facts(out[..k])) > 0
    decreases |ps|
  {
    hide Picks, Chosen, Enough;
    if ps == [] || room == 0 {
      NothingPicked(target, ps, covered, seen, room, out);
      return;
    }
    var i := FirstPick(target, ps, covered, seen, room, out);
      FirstFacts(out);
    var rest, covered' := Without(ps, i), covered + ps[i].facts;
    WithoutFacts(ps, i);
    if k == 0 {
      assert covered + Facts(out[..0]) == covered;
      ChosenGains(target, ps, covered, seen, i);
    } else {
      PrefixFacts(out, k, covered);
        NoWastedPick(target, rest, covered', seen + {ps[i].publisher}, room - 1, out[1..], k - 1);
    }
  }

  lemma PickShrinks(target: set<nat>, covered: set<nat>, p: Page)
    requires Gain(p, covered) > 0 && p.facts <= target + covered
    ensures |target - (covered + p.facts)| < |target - covered|
  {
    var f :| f in p.facts - covered;
    assert f in target - covered && f !in target - (covered + p.facts);
    Smaller(target - (covered + p.facts), target - covered);
  }

  predicate OnTheWay(target: set<nat>, facts: set<nat>, covered: set<nat>) {
    target != {} && target <= covered + facts && facts <= target
  }

  /** One pick either covers something new or, with everything covered, is the last one. */
  lemma AfterPick(target: set<nat>, ps: seq<Page>, covered: set<nat>, seen: set<nat>, i: nat)
    requires Chosen(ps, covered, seen, i) && OnTheWay(target, Facts(ps), covered)
    requires target <= covered ==> |seen| >= 1 && !Enough(target, ps, covered, seen)
    ensures OnTheWay(target, Facts(Without(ps, i)), covered + ps[i].facts)
    ensures Publishers(ps) == Publishers(Without(ps, i)) + {ps[i].publisher}
    ensures |seen + {ps[i].publisher}| >= 1
    ensures
      if target <= covered then
        Enough(target, Without(ps, i), covered + ps[i].facts, seen + {ps[i].publisher})
      else
        |target - (covered + ps[i].facts)| < |target - covered|
  {
    WithoutFacts(ps, i);
    assert ps[i].publisher in seen + {ps[i].publisher};
    if target <= covered {
      ChosenIsNew(target, ps, covered, seen, i);
      assert |seen + {ps[i].publisher}| == |seen| + 1;
    } else {
      ChosenGains(target, ps, covered, seen, i);
      PickShrinks(target, covered, ps[i]);
    }
  }

  /** Covering costs at most one page per uncovered target, and diversity at most one more. */
  lemma {:induction false} FewPicks(
      target: set<nat>, ps: seq<Page>, covered: set<nat>, seen: set<nat>, room: nat, out: seq<Page>)
    requires Picks(target, ps, covered, seen, room, out) && OnTheWay(target, Facts(ps), covered)
    requires target <= covered ==> |seen| >= 1 && !Enough(target, ps, covered, seen)
    ensures |out| <= |target - covered| + 1
    decreases |ps|
  {
    hide Picks, Chosen, Enough, OnTheWay;
    if ps == [] || room == 0 {
      NothingPicked(target, ps, covered, seen, room, out);
    } else {
      var i := FirstPick(target, ps, covered, seen, room, out);
      var rest, covered', seen' := Without(ps, i), covered + ps[i].facts, seen + {ps[i].publisher};
      AfterPick(target, ps, covered, seen, i);
      if !Enough(target, rest, covered', seen') {
        FewPicks(target, rest, covered', seen', room - 1, out[1..]);
      }
    }
  }

  /** A limit that is at least the number of uncovered targets is enough to cover them all. */
  lemma {:induction false} RoomCovers(
      target: set<nat>, ps: seq<Page>, covered: set<nat>, seen: set<nat>, room: nat, out: seq<Page>)
    requires Picks(target, ps, covered, seen, room, out) && OnTheWay(target, Facts(ps), covered)
    requires target <= covered ==> |seen| >= 1 && !Enough(target, ps, covered, seen)
    requires room >= |target - covered|
    ensures target <= covered + Facts(out)
    decreases |ps|
  {
    hide Picks, Chosen, Facts, Publishers, Without;
    if !(target <= covered) {
      var f :| f in target && f !in covered;
      assert f in target - covered;
      NothingLeft(target, ps, covered);
      var i := FirstPick(target, ps, covered, seen, room, out);
      FirstFacts(out);
      var rest, covered', seen' := Without(ps, i), covered + ps[i].facts, seen + {ps[i].publisher};
      AfterPick(target, ps, covered, seen, i);
      Shorter(ps, i);
      if !Enough(target, rest, covered', seen') {
        RoomCovers(target, rest, covered', seen', room - 1, out[1..]);
      }
    }
  }

  lemma NothingLeft(target: set<nat>, ps: seq<Page>, covered: set<nat>)
    requires OnTheWay(target, Facts(ps), covered)
    ensures ps == [] ==> target <= covered
  {
  }

  lemma EnoughSeen(target: set<nat>, rest: seq<Page>, covered: set<nat>, seen: set<nat>, more: set<nat>)
    requires Enough(target, rest, covered, seen)
    ensures |seen + more| >= 2 || Publishers(rest) <= seen
  {
    Smaller(seen, seen + more);
  }

  /** With one slot more than there are uncovered targets, two publishers are chosen unless
      there are no two to choose from. */
  lemma {:induction false} TwoPublishers(
      target: set<nat>, ps: seq<Page>, covered: set<nat>, seen: set<nat>, room: nat, out: seq<Page>)
    requires Picks(target, ps, covered, seen, room, out) && OnTheWay(target, Facts(ps), covered)
    requires target <= covered ==> |seen| >= 1 && !Enough(target, ps, covered, seen)
    requires room >= |target - covered| + 1
    ensures |seen + Publishers(out)| >= 2 || Publishers(ps) <= seen + Publishers(out)
    decreases |ps|
  {
    hide *;
    if ps == [] {
      NothingPicked(target, ps, covered, seen, room, out);
    } else {
      var i := FirstPick(target, ps, covered, seen, room, out);
      FirstFacts(out);
      Shorter(ps, i);
      var rest, covered', seen' := Without(ps, i), covered + ps[i].facts, seen + {ps[i].publisher};
      AfterPick(target, ps, covered, seen, i);
      assert seen + Publishers(out) == seen' + Publishers(out[1..]);
      if Enough(target, rest, covered', seen') {
        EnoughSeen(target, rest, covered', seen', Publishers(out[1..]));
      } else {
        TwoPublishers(target, rest, covered', seen', room - 1, out[1..]);
      }
    }
  }

  // ---------------------------------------------------------------- how good the greedy choice is

  function Pow(b: nat, e: nat): nat {
    if e == 0 then 1 else b * Pow(b, e - 1)
  }

  /** No trusted page has anything to add. */
  predicate NoTrustedGain(pages: seq<Page>, covered: set<nat>) {
    forall p :: p in pages && Trusted(p) ==> p.facts <= covered
  }

  /** `cover` covers the targets, and each of its pages is still to be had or adds nothing. */
  ghost predicate Covers(cover: seq<Page>, target: set<nat>, ps: seq<Page>, covered: set<nat>) {
    target <= covered + Facts(cover) && forall c :: c in cover ==> c in ps || c.facts <= covered
  }

  /** If no page of a cover adds more than `gain`, the cover needs that many pages. */
  lemma {:induction false} CoverNeeds(cover: seq<Page>, target: set<nat>, covered: set<nat>, gain: nat)
    requires target <= covered + Facts(cover)
    requires forall c :: c in cover ==> Gain(c, covered) <= gain
    ensures |target - covered| <= |cover| * gain
  {
    hide Facts, Publishers;
    if cover == [] {
      assert target - covered == {} by {
        NoFacts();
      }
    } else {
      var c, more := cover[0], cover[1..];
      FirstFacts(cover);
      assert c in cover && |cover| == |more| + 1;
      CoverNeeds(more, target - c.facts, covered, gain);
      CardAdd(target - covered, target - c.facts - covered, c.facts - covered);
      Distribute(|more|, 1, gain);
    }
  }

  lemma CardAdd<T>(a: set<T>, b: set<T>, c: set<T>)
    requires a <= b + c
    ensures |a| <= |b| + |c|
  {
    Smaller(a, b + c);
  }

  lemma Distribute(a: nat, b: nat, c: nat)
    ensures (a + b) * c == a * c + b * c
  {
  }

  lemma MulLe(a: nat, b: nat, c: nat)
    requires a <= b
    ensures c * a <= c * b
  {
  }

  /** Where no trusted page has anything to add, the pick gains as much as any page can. */
  lemma ChosenIsBest(ps: seq<Page>, covered: set<nat>, seen: set<nat>, i: nat, c: Page)
    requires Chosen(ps, covered, seen, i) && NoTrustedGain(ps, covered)
    requires c in ps || c.facts <= covered
    ensures Gain(c, covered) <= Gain(ps[i], covered)
  {
    hide TieLe, IdleLe;
    if c.facts <= covered {
      assert c.facts - covered == {};
    } else {
      var j :| 0 <= j < |ps| && ps[j] == c;
      forall k | 0 <= k < |ps| && Trusted(ps[k]) ensures Gain(ps[k], covered) == 0 {
        assert ps[k] in ps;
        assert ps[k].facts - covered == {};
      }
      if Gain(c, covered) > 0 {
        assert InPool(ps, covered, j);
      }
    }
  }

  /** With a cover of `k` pages, one pick leaves at most `(k - 1) / k` of what was uncovered. */
  lemma OnePickShrinks(target: set<nat>, ps: seq<Page>, covered: set<nat>, seen: set<nat>, i: nat, cover: seq<Page>)
    requires i < |ps| && ps[i].facts <= target && cover != []
    requires Chosen(ps, covered, seen, i) && NoTrustedGain(ps, covered) && Covers(cover, target, ps, covered)
    ensures |target - (covered + ps[i].facts)| * |cover| <= |target - covered| * (|cover| - 1)
  {
    var g := Gain(ps[i], covered);
    hide Chosen, NoTrustedGain, Facts, Gain, Covers;
    NoneGainsMore(target, ps, covered, seen, i, cover);
    CoverNeeds(cover, target, covered, g);
    GainSplits(target, covered, ps[i]);
    Ratio(|target - (covered + ps[i].facts)|, g, |cover|);
  }

  lemma NoneGainsMore(target: set<nat>, ps: seq<Page>, covered: set<nat>, seen: set<nat>, i: nat, cover: seq<Page>)
    requires i < |ps| && Chosen(ps, covered, seen, i) && NoTrustedGain(ps, covered) && Covers(cover, target, ps, covered)
    ensures forall c :: c in cover ==> Gain(c, covered) <= Gain(ps[i], covered)
    ensures target <= covered + Facts(cover)
  {
    hide Chosen, NoTrustedGain, Facts, Gain;
    forall c | c in cover ensures Gain(c, covered) <= Gain(ps[i], covered) {
      ChosenIsBest(ps, covered, seen, i, c);
    }
  }

  lemma GainSplits(target: set<nat>, covered: set<nat>, p: Page)
    requires p.facts <= target
    ensures |target - covered| == |target - (covered + p.facts)| + Gain(p, covered)
  {
    assert target - covered == (target - (covered + p.facts)) + (p.facts - covered);
    assert (target - (covered + p.facts)) * (p.facts - covered) == {};
  }

  lemma Ratio(after: nat, g: nat, k: nat)
    requires k >= 1 && after + g <= k * g
    ensures after * k <= (after + g) * (k - 1)
  {
    calc {
      (after + g) * (k - 1);
    ==
      after * k - after + g * k - g;
    >=
      after * k;
    }
  }

  lemma PowStep(u1: nat, u0: nat, v: nat, k: nat, j: nat)
    requires k >= 1 && j >= 1
    requires v * Pow(k, j - 1) <= u1 * Pow(k - 1, j - 1) && u1 * k <= u0 * (k - 1)
    ensures v * Pow(k, j) <= u0 * Pow(k - 1, j)
  {
    var a, b := Pow(k, j - 1), Pow(k - 1, j - 1);
    MulLe(v * a, u1 * b, k);
    Reorder(k, v, a);
    Reorder(k, u1, b);
    MulLe(u1 * k, u0 * (k - 1), b);
    Reorder(b, u1, k);
    Reorder(b, u0, k - 1);
    Commute(u1, k, b);
    Commute(u0, k - 1, b);
  }

  lemma Reorder(a: nat, b: nat, c: nat)
    ensures a * (b * c) == b * (a * c)
  {
  }

  lemma Commute(a: nat, b: nat, c: nat)
    ensures a * (b * c) == a * (c * b)
  {
  }

  lemma CoversAfter(target: set<nat>, ps: seq<Page>, covered: set<nat>, i: nat, cover: seq<Page>)
    requires i < |ps| && Covers(cover, target, ps, covered)
    ensures Covers(cover, target, Without(ps, i), covered + ps[i].facts)
  {
    WithoutAll(ps, i);
  }

  /** The greedy bound from any point of the loop at which no trusted page has anything to add. */
  lemma {:induction false} GreedyShrinks(
      target: set<nat>, ps: seq<Page>, covered: set<nat>, seen: set<nat>, room: nat, out: seq<Page>,
      cover: seq<Page>, j: nat)
    requires Picks(target, ps, covered, seen, room, out) && j <= |out|
    requires NoTrustedGain(ps, covered) && Covers(cover, target, ps, covered) && cover != []
    requires forall p :: p in ps ==> p.facts <= target
    ensures |target - (covered + Facts(out[..j]))| * Pow(|cover|, j) <= |target - covered| * Pow(|cover| - 1, j)
    decreases |ps|
  {
    hide Picks, Chosen, Enough, Covers, Facts, Publishers, Without;
    if j == 0 {
      NoFacts();
      assert covered + Facts(out[..0]) == covered;
    } else if ps == [] || room == 0 {
      NothingPicked(target, ps, covered, seen, room, out);
    } else {
      var i := FirstPick(target, ps, covered, seen, room, out);
      OnePickShrinks(target, ps, covered, seen, i, cover);
      PrefixFacts(out, j, covered);
      var rest, covered', seen' := Without(ps, i), covered + ps[i].facts, seen + {ps[i].publisher};
      WithoutAll(ps, i);
      Shorter(ps, i);
      CoversAfter(target, ps, covered, i, cover);
      if !Enough(target, rest, covered', seen') {
        GreedyShrinks(target, rest, covered', seen', room - 1, out[1..], cover, j - 1);
      } else {
        NoFacts();
        assert covered' + Facts(out[1..][..0]) == covered';
      }
      PowStep(|target - covered'|, |target - covered|, |target - (covered + Facts(out[..j]))|, |cover|, j);
    }
  }

  lemma {:induction false} GreedyFrom(
      target: set<nat>, ps: seq<Page>, covered: set<nat>, seen: set<nat>, room: nat, out: seq<Page>,
      all: seq<Page>, cover: seq<Page>, m: nat, j: nat)
    requires Picks(target, ps, covered, seen, room, out) && 0 < j && m + j <= |out|
    requires forall p :: p in ps ==> p in all && p.facts <= target
    requires NoTrustedGain(all, covered + Facts(out[..m]))
    requires Covers(cover, target, ps, covered) && cover != []
    ensures |target - (covered + Facts(out[..m + j]))| * Pow(|cover|, j)
         <= |target - (covered + Facts(out[..m]))| * Pow(|cover| - 1, j)
    decreases |ps|
  {
    hide Picks, Chosen, Enough, Covers, Facts, Publishers, Without, Pow;
    if m == 0 {
      NoFacts();
      assert covered + Facts(out[..0]) == covered;
      GreedyShrinks(target, ps, covered, seen, room, out, cover, j);
    } else if ps == [] || room == 0 {
      NothingPicked(target, ps, covered, seen, room, out);
    } else {
      var i := FirstPick(target, ps, covered, seen, room, out);
      PrefixFacts(out, m, covered);
      PrefixFacts(out, m + j, covered);
      WithoutAll(ps, i);
      Shorter(ps, i);
      CoversAfter(target, ps, covered, i, cover);
      GreedyFrom(target, Without(ps, i), covered + ps[i].facts, seen + {ps[i].publisher}, room - 1, out[1..],
        all, cover, m - 1, j);
    }
  }

  // ---------------------------------------------------------------- what the research choice promises

  ghost predicate ResearchChoice(ranked: seq<Page>, limit: nat, out: seq<Page>) {
    Picks(Facts(ranked), ranked, {}, {}, limit, out)
  }

  predicate DistinctUrls(ps: seq<Page>) {
    forall i, j :: 0 <= i < j < |ps| ==> ps[i].url != ps[j].url
  }

  lemma SameBagSameFacts(a: seq<Page>, b: seq<Page>)
    requires multiset(a) <= multiset(b)
    ensures Facts(a) <= Facts(b)
  {
    forall f | f in Facts(a) ensures f in Facts(b) {
      var i :| 0 <= i < |a| && f in a[i].facts;
      assert a[i] in multiset(a);
      var k :| 0 <= k < |b| && b[k] == a[i];
    }
  }

  lemma TwiceInBag(ps: seq<Page>, i: nat, j: nat)
    requires i < j < |ps| && ps[i] == ps[j]
    ensures multiset(ps)[ps[i]] >= 2
  {
    assert ps == ps[..i] + [ps[i]] + ps[i + 1..j] + [ps[j]] + ps[j + 1..];
  }

  lemma {:induction false} OnceInBag(ps: seq<Page>, p: Page)
    requires DistinctUrls(ps)
    ensures multiset(ps)[p] <= 1
  {
    if ps != [] {
      var init := ps[..|ps| - 1];
      assert ps == init + [ps[|ps| - 1]];
      OnceInBag(init, p);
      if p in init {
        var i :| 0 <= i < |init| && init[i] == p;
        assert ps[i] == p;
      } else {
        assert multiset(init)[p] == 0;
      }
    }
  }

  /** Pages with distinct addresses stay distinct in any choice made from them. */
  lemma ChoiceIsDistinct(ranked: seq<Page>, out: seq<Page>)
    requires DistinctUrls(ranked) && multiset(out) <= multiset(ranked)
    ensures DistinctUrls(out)
  {
    forall i, j | 0 <= i < j < |out| ensures out[i].url != out[j].url {
      assert out[i] in multiset(ranked) && out[j] in multiset(ranked);
      if out[i] == out[j] {
        TwiceInBag(out, i, j);
        OnceInBag(ranked, out[i]);
      } else {
        var a :| 0 <= a < |ranked| && ranked[a] == out[i];
        var b :| 0 <= b < |ranked| && ranked[b] == out[j];
        assert a != b;
      }
    }
  }

  /** Within the limit the research choice covers every fact any candidate was found for, or
      fills the limit; as many slots as there are facts are enough. */
  lemma ResearchCovers(ranked: seq<Page>, limit: nat, out: seq<Page>)
    requires ResearchChoice(ranked, limit, out)
    ensures |out| <= limit && multiset(out) <= multiset(ranked)
    ensures DistinctUrls(ranked) ==> DistinctUrls(out)
    ensures Facts(out) == Facts(ranked) || |out| == limit
    ensures limit >= |Facts(ranked)| ==> Facts(out) == Facts(ranked)
  {
    hide Picks, Facts;
    var t := Facts(ranked);
    PicksAreDistinct(t, ranked, {}, {}, limit, out);
    SameBagSameFacts(out, ranked);
    if multiset(out) == multiset(ranked) {
      SameBagSameFacts(ranked, out);
    }
    if DistinctUrls(ranked) {
      ChoiceIsDistinct(ranked, out);
    }
    if limit >= |t| && t != {} {
      assert t - {} == t;
      RoomCovers(t, ranked, {}, {}, limit, out);
    }
  }

  /** Every slot spent before coverage is complete buys a fact not yet covered. */
  lemma ResearchWastesNothing(ranked: seq<Page>, limit: nat, out: seq<Page>, k: nat)
    requires ResearchChoice(ranked, limit, out)
    requires k < |out| && Facts(out[..k]) != Facts(ranked)
    ensures Gain(out[k], Facts(out[..k])) > 0
  {
    hide Picks, Facts, Gain;
    var t := Facts(ranked);
    PicksAreDistinct(t, ranked, {}, {}, limit, out);
    assert multiset(out[..k]) <= multiset(out) by {
      assert out == out[..k] + out[k..];
    }
    SameBagSameFacts(out[..k], ranked);
    assert {} + Facts(out[..k]) == Facts(out[..k]) && {} + t == t;
    NoWastedPick(t, ranked, {}, {}, limit, out, k);
  }

  /** The choice is small, and diverse when the limit leaves room for that. */
  lemma ResearchIsSmallAndDiverse(ranked: seq<Page>, limit: nat, out: seq<Page>)
    requires ResearchChoice(ranked, limit, out) && Facts(ranked) != {}
    ensures |out| <= |Facts(ranked)| + 1
    ensures limit > |Facts(ranked)| ==> |Publishers(out)| >= 2 || Publishers(out) == Publishers(ranked)
  {
    hide Picks, Facts, Publishers;
    var t := Facts(ranked);
    assert t - {} == t;
    FewPicks(t, ranked, {}, {}, limit, out);
    if limit > |t| {
      TwoPublishers(t, ranked, {}, {}, limit, out);
      assert {} + Publishers(out) == Publishers(out);
      PicksAreDistinct(t, ranked, {}, {}, limit, out);
      SameBagSamePublishers(out, ranked);
    }
  }

  lemma SameBagSamePublishers(a: seq<Page>, b: seq<Page>)
    requires multiset(a) <= multiset(b)
    ensures Publishers(a) <= Publishers(b)
  {
    forall f | f in Publishers(a) ensures f in Publishers(b) {
      var i :| 0 <= i < |a| && f == a[i].publisher;
      assert a[i] in multiset(a);
      var k :| 0 <= k < |b| && b[k] == a[i];
    }
  }

  /** With no targets at all the loop never stops early. */
  lemma {:induction false} NoTargetsFillTheLimit(
      ps: seq<Page>, covered: set<nat>, seen: set<nat>, room: nat, out: seq<Page>)
    requires Picks({}, ps, covered, seen, room, out)
    ensures |out| == Min(room, |ps|)
    decreases |ps|
  {
    hide Picks, Chosen, Without;
    if ps == [] || room == 0 {
      NothingPicked({}, ps, covered, seen, room, out);
    } else {
      var i := FirstPick({}, ps, covered, seen, room, out);
      Shorter(ps, i);
      NoTargetsFillTheLimit(Without(ps, i), covered + ps[i].facts, seen + {ps[i].publisher}, room - 1, out[1..]);
    }
  }

  /** The greedy bound. After `m` picks no trusted page has anything to add any more. If some
      `k` of the candidates cover every target, then `j` more picks leave at most
      `((k - 1) / k)^j` of what was uncovered. */
  lemma GreedyBound(ranked: seq<Page>, limit: nat, out: seq<Page>, cover: seq<Page>, m: nat, j: nat)
    requires ResearchChoice(ranked, limit, out) && m + j <= |out|
    requires NoTrustedGain(ranked, Facts(out[..m]))
    requires cover != [] && (forall c :: c in cover ==> c in ranked) && Facts(ranked) <= Facts(cover)
    ensures |Facts(ranked) - Facts(out[..m + j])| * Pow(|cover|, j)
         <= |Facts(ranked) - Facts(out[..m])| * Pow(|cover| - 1, j)
  {
    hide Picks, Facts, Pow;
    var t := Facts(ranked);
    assert {} + Facts(out[..m]) == Facts(out[..m]) && {} + Facts(out[..m + j]) == Facts(out[..m + j]);
    if j > 0 {
      forall p | p in ranked ensures p.facts <= t {
        InFacts(ranked, p);
      }
      assert {} + Facts(cover) == Facts(cover);
      GreedyFrom(t, ranked, {}, {}, limit, out, ranked, cover, m, j);
    } else {
      PowZero(|cover|);
      PowZero(|cover| - 1);
    }
  }

  lemma PowZero(b: nat)
    ensures Pow(b, 0) == 1
  {
  }

  lemma InFacts(ps: seq<Page>, p: Page)
    requires p in ps
    ensures p.facts <= Facts(ps)
  {
    var i :| 0 <= i < |ps| && ps[i] == p;
    assert forall f :: f in p.facts ==> f in ps[i].facts;
  }
}
