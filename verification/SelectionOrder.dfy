/** Which page each slot of the research choice goes to, stated over the ranking itself: where every
    pick stands in it, and what makes it come before every page still left. */
module SelectionOrder {
  import opened Wrappers
  import opened Selection
  import opened FastSelection

  /** Whether a page of the ranking has a fact that is not covered yet. */
  predicate Adds(p: Page, covered: set<nat>) {
    exists f :: f in p.facts && f !in covered
  }

  /** Fewer facts, then official, then a publisher not seen yet, then the better rank. */
  predicate SmallerFirst(ranked: seq<Page>, seen: set<nat>, i: nat, j: nat)
    requires i < |ranked| && j < |ranked|
  {
    var p, q := ranked[i], ranked[j];
    if |p.facts| != |q.facts| then |p.facts| < |q.facts|
    else if p.official != q.official then p.official
    else if (p.publisher in seen) != (q.publisher in seen) then p.publisher !in seen
    else i <= j
  }

  /** A publisher not seen yet, then official, then the better rank. */
  predicate NewerFirst(ranked: seq<Page>, seen: set<nat>, i: nat, j: nat)
    requires i < |ranked| && j < |ranked|
  {
    var p, q := ranked[i], ranked[j];
    if (p.publisher in seen) != (q.publisher in seen) then p.publisher !in seen
    else if p.official != q.official then p.official
    else i <= j
  }

  /** The page at `i` is official, comes from a direct source and adds a fact. */
  predicate TrustedAdds(ranked: seq<Page>, covered: set<nat>, i: nat)
    requires i < |ranked|
  {
    ranked[i].official && ranked[i].direct && Adds(ranked[i], covered)
  }

  /** No page left at `j` should have been taken before the one at `i`: it adds fewer facts, or as
      many and comes later among equals. */
  predicate AddsMost(ranked: seq<Page>, covered: set<nat>, seen: set<nat>, i: nat, j: nat)
    requires i < |ranked| && j < |ranked|
  {
    || |ranked[j].facts - covered| < |ranked[i].facts - covered|
    || (|ranked[j].facts - covered| == |ranked[i].facts - covered| && SmallerFirst(ranked, seen, i, j))
  }

  /** The next pick: as long as a trusted page left adds a fact, the trusted page that adds most; after
      that, as long as any page adds one, the page that adds most; and then the page of the newest
      publisher. */
  ghost predicate TakenNext(ranked: seq<Page>, left: set<nat>, covered: set<nat>, seen: set<nat>, i: nat) {
    && i in left && (forall j :: j in left ==> j < |ranked|)
    && if exists j :: j in left && TrustedAdds(ranked, covered, j) then
         TrustedAdds(ranked, covered, i) &&
         forall j :: j in left && TrustedAdds(ranked, covered, j) ==> AddsMost(ranked, covered, seen, i, j)
       else if exists j :: j in left && Adds(ranked[j], covered) then
         Adds(ranked[i], covered) &&
         forall j :: j in left ==> AddsMost(ranked, covered, seen, i, j)
       else
         forall j :: j in left ==> NewerFirst(ranked, seen, i, j)
  }

  /** Every target is covered, and another page could not add a second publisher. */
  ghost predicate MayStop(ranked: seq<Page>, left: set<nat>, target: set<nat>, covered: set<nat>, seen: set<nat>) {
    && target != {} && target <= covered
    && (|seen| >= 2 || forall j :: j in left && j < |ranked| ==> ranked[j].publisher in seen)
  }

  /** The places in `left` that the first `k` picks have not taken. */
  ghost function LeftAfter(left: set<nat>, at: seq<nat>, k: nat): set<nat> {
    set i | i in left && i !in at[..if k <= |at| then k else |at|]
  }

  /** `at` says where each pick stands in the ranking; each is the next to be taken from what the
      earlier ones left, and the picking goes on until the slots or the pages are used up or it may
      stop. */
  ghost predicate InOrder(
      ranked: seq<Page>, left: set<nat>, target: set<nat>, covered: set<nat>, seen: set<nat>, room: nat,
      out: seq<Page>, at: seq<nat>)
  {
    && |at| == |out| <= room
    && (forall k :: 0 <= k < |out| ==> at[k] < |ranked| && out[k] == ranked[at[k]])
    && (forall k :: 0 <= k < |out| ==>
          TakenNext(ranked, LeftAfter(left, at, k), covered + Facts(out[..k]), seen + Publishers(out[..k]), at[k]))
    && (forall k :: 0 < k < |out| ==>
          !MayStop(ranked, LeftAfter(left, at, k), target, covered + Facts(out[..k]), seen + Publishers(out[..k])))
    && (|out| == room || LeftAfter(left, at, |out|) == {} ||
        (out != [] && MayStop(ranked, LeftAfter(left, at, |out|), target, covered + Facts(out), seen + Publishers(out))))
  }

  // ---------------------------------------------------------------- the remaining list and its places

  ghost function Places(pos: seq<nat>): set<nat> {
    set i | i in pos
  }

  /** `pos` gives, in order, the places in the ranking of the pages of `ps`. */
  ghost predicate Sits(ranked: seq<Page>, ps: seq<Page>, pos: seq<nat>) {
    && |pos| == |ps|
    && (forall i, j :: 0 <= i < j < |pos| ==> pos[i] < pos[j])
    && (forall i :: 0 <= i < |pos| ==> pos[i] < |ranked| && ranked[pos[i]] == ps[i])
  }

  lemma WithoutSits(ranked: seq<Page>, ps: seq<Page>, pos: seq<nat>, i: nat)
    requires Sits(ranked, ps, pos) && i < |ps|
    ensures Sits(ranked, Without(ps, i), Without(pos, i))
    ensures Places(Without(pos, i)) == Places(pos) - {pos[i]}
  {
    var rest := Without(pos, i);
    forall p ensures p in Places(rest) <==> p in Places(pos) - {pos[i]} {
      if p in pos && p != pos[i] {
        var j :| 0 <= j < |pos| && pos[j] == p;
        assert rest[if j < i then j else j - 1] == p;
      }
    }
  }

  lemma AddsIsGain(p: Page, covered: set<nat>)
    ensures Adds(p, covered) <==> Gain(p, covered) > 0
  {
    if Adds(p, covered) {
      var f :| f in p.facts && f !in covered;
      assert f in p.facts - covered;
    } else {
      assert p.facts - covered == {};
    }
  }

  lemma TiesAgree(ranked: seq<Page>, ps: seq<Page>, pos: seq<nat>, seen: set<nat>, i: nat, j: nat)
    requires Sits(ranked, ps, pos) && i < |ps| && j < |ps|
    ensures TieLe(ps, seen, i, j) <==> SmallerFirst(ranked, seen, pos[i], pos[j])
    ensures IdleLe(ps, seen, i, j) <==> NewerFirst(ranked, seen, pos[i], pos[j])
  {
    assert i <= j <==> pos[i] <= pos[j];
  }

  lemma InPlaces(pos: seq<nat>, p: nat) returns (i: nat)
    requires p in Places(pos)
    ensures i < |pos| && pos[i] == p
  {
    i :| 0 <= i < |pos| && pos[i] == p;
  }

  /** What standing at a place of the ranking means in the remaining list. */
  lemma AtPlace(ranked: seq<Page>, ps: seq<Page>, pos: seq<nat>, covered: set<nat>, seen: set<nat>, i: nat, j: nat)
    requires Sits(ranked, ps, pos) && i < |ps| && j < |ps|
    ensures pos[j] in Places(pos) && pos[j] < |ranked| && ranked[pos[j]] == ps[j]
    ensures Adds(ranked[pos[j]], covered) <==> Gain(ps[j], covered) > 0
    ensures AddsMost(ranked, covered, seen, pos[i], pos[j]) <==>
            Gain(ps[j], covered) < Gain(ps[i], covered) ||
            (Gain(ps[j], covered) == Gain(ps[i], covered) && TieLe(ps, seen, i, j))
    ensures IdleLe(ps, seen, i, j) <==> NewerFirst(ranked, seen, pos[i], pos[j])
  {
    AddsIsGain(ps[j], covered);
    TiesAgree(ranked, ps, pos, seen, i, j);
  }

  lemma ChosenIsNext(ranked: seq<Page>, ps: seq<Page>, pos: seq<nat>, covered: set<nat>, seen: set<nat>, i: nat)
    requires Sits(ranked, ps, pos) && i < |ps| && Chosen(ps, covered, seen, i)
    ensures TakenNext(ranked, Places(pos), covered, seen, pos[i])
  {
    hide TieLe, IdleLe, NewerFirst, AddsMost, Gain, Adds, Sits, Places;
    SameLength(ranked, ps, pos);
    AtPlace(ranked, ps, pos, covered, seen, i, i);
    forall p | p in Places(pos)
      ensures p < |ranked|
      ensures SomeTrustedGain(ps, covered) ==> TrustedAdds(ranked, covered, pos[i])
      ensures SomeTrustedGain(ps, covered) && TrustedAdds(ranked, covered, p) ==> AddsMost(ranked, covered, seen, pos[i], p)
      ensures TrustedAdds(ranked, covered, p) ==> SomeTrustedGain(ps, covered)
      ensures !SomeTrustedGain(ps, covered) && SomeGain(ps, covered) ==>
                Adds(ranked[pos[i]], covered) && AddsMost(ranked, covered, seen, pos[i], p)
      ensures Adds(ranked[p], covered) ==> SomeGain(ps, covered)
      ensures !SomeGain(ps, covered) ==> NewerFirst(ranked, seen, pos[i], p)
    {
      var j := InPlaces(pos, p);
      AtPlace(ranked, ps, pos, covered, seen, i, j);
      NextAt(ps, covered, seen, i, j);
    }
    GainsAreLeft(ranked, ps, pos, covered);
  }

  /** What the choice at `i` says of another page of the list. */
  lemma NextAt(ps: seq<Page>, covered: set<nat>, seen: set<nat>, i: nat, j: nat)
    requires i < |ps| && j < |ps| && Chosen(ps, covered, seen, i)
    ensures Gain(ps[j], covered) > 0 ==> SomeGain(ps, covered)
    ensures Gain(ps[j], covered) > 0 && Trusted(ps[j]) ==> SomeTrustedGain(ps, covered)
    ensures SomeTrustedGain(ps, covered) ==> Trusted(ps[i]) && Gain(ps[i], covered) > 0
    ensures SomeGain(ps, covered) ==> Gain(ps[i], covered) > 0
    ensures SomeGain(ps, covered) && (SomeTrustedGain(ps, covered) ==> Trusted(ps[j])) ==>
              Gain(ps[j], covered) < Gain(ps[i], covered) ||
              (Gain(ps[j], covered) == Gain(ps[i], covered) && TieLe(ps, seen, i, j))
    ensures !SomeGain(ps, covered) ==> IdleLe(ps, seen, i, j)
  {
    hide Gain, TieLe, IdleLe;
    if SomeTrustedGain(ps, covered) {
      var t :| 0 <= t < |ps| && Gain(ps[t], covered) > 0 && Trusted(ps[t]);
      assert SomeGain(ps, covered);
    }
  }

  lemma GainsAreLeft(ranked: seq<Page>, ps: seq<Page>, pos: seq<nat>, covered: set<nat>)
    requires Sits(ranked, ps, pos)
    ensures SomeTrustedGain(ps, covered) ==> exists p :: p in Places(pos) && p < |ranked| && TrustedAdds(ranked, covered, p)
    ensures SomeGain(ps, covered) ==> exists p :: p in Places(pos) && p < |ranked| && Adds(ranked[p], covered)
  {
    hide Gain, Adds;
    if SomeTrustedGain(ps, covered) {
      var j: nat :| j < |ps| && Gain(ps[j], covered) > 0 && Trusted(ps[j]);
      AddsIsGain(ps[j], covered);
      assert pos[j] in Places(pos) && TrustedAdds(ranked, covered, pos[j]);
    }
    if SomeGain(ps, covered) {
      var j: nat :| j < |ps| && Gain(ps[j], covered) > 0;
      AddsIsGain(ps[j], covered);
      assert pos[j] in Places(pos) && Adds(ranked[pos[j]], covered);
    }
  }

  lemma EnoughMayStop(
      ranked: seq<Page>, ps: seq<Page>, pos: seq<nat>, target: set<nat>, covered: set<nat>, seen: set<nat>)
    requires Sits(ranked, ps, pos)
    ensures Enough(target, ps, covered, seen) <==> MayStop(ranked, Places(pos), target, covered, seen)
  {
    if Publishers(ps) <= seen {
      forall p | p in Places(pos) ensures ranked[p].publisher in seen {
        var j := InPlaces(pos, p);
        assert ps[j].publisher in Publishers(ps);
      }
    }
    if forall p :: p in Places(pos) && p < |ranked| ==> ranked[p].publisher in seen {
      forall b | b in Publishers(ps) ensures b in seen {
        var j :| 0 <= j < |ps| && ps[j].publisher == b;
        assert pos[j] in Places(pos);
      }
    }
  }

  // ---------------------------------------------------------------- one pick in front of the others

  lemma LeftShifts(left: set<nat>, p: nat, at: seq<nat>, k: nat)
    requires p in left && 0 < k <= |at| + 1
    ensures LeftAfter(left, [p] + at, k) == LeftAfter(left - {p}, at, k - 1)
  {
    assert ([p] + at)[..k] == [p] + at[..k - 1];
  }

  lemma CoveredShifts(out: seq<Page>, k: nat, covered: set<nat>, seen: set<nat>)
    requires 0 < k <= |out|
    ensures covered + Facts(out[..k]) == (covered + out[0].facts) + Facts(out[1..][..k - 1])
    ensures seen + Publishers(out[..k]) == (seen + {out[0].publisher}) + Publishers(out[1..][..k - 1])
  {
    PrefixFacts(out, k, covered);
    assert out[..k] == [out[0]] + out[1..][..k - 1];
    FactsStep(out[0], out[1..][..k - 1]);
  }

  lemma FirstThenRest(
      ranked: seq<Page>, left: set<nat>, target: set<nat>, covered: set<nat>, seen: set<nat>, room: nat,
      out: seq<Page>, p: nat, at: seq<nat>)
    requires room > 0 && out != [] && p in left && p < |ranked| && out[0] == ranked[p]
    requires TakenNext(ranked, left, covered, seen, p)
    requires var covered', seen' := covered + out[0].facts, seen + {out[0].publisher};
      if MayStop(ranked, left - {p}, target, covered', seen') then |out| == 1 && at == []
      else InOrder(ranked, left - {p}, target, covered', seen', room - 1, out[1..], at)
    ensures InOrder(ranked, left, target, covered, seen, room, out, [p] + at)
  {
    hide TakenNext, MayStop, LeftAfter, Facts, Publishers;
    var all := [p] + at;
    var covered', seen' := covered + out[0].facts, seen + {out[0].publisher};
    assert |at| == |out| - 1;
    forall k | 0 < k <= |out|
      ensures LeftAfter(left, all, k) == LeftAfter(left - {p}, at, k - 1)
      ensures covered + Facts(out[..k]) == covered' + Facts(out[1..][..k - 1])
      ensures seen + Publishers(out[..k]) == seen' + Publishers(out[1..][..k - 1])
    {
      LeftShifts(left, p, at, k);
      CoveredShifts(out, k, covered, seen);
    }
    NothingTaken(left, all);
    NothingTaken(left - {p}, at);
    NoFacts();
    assert out[..0] == [] && out[1..][..0] == [] && out[..|out|] == out && out[1..][..|out| - 1] == out[1..];
    forall k | 0 <= k < |out|
      ensures all[k] < |ranked| && out[k] == ranked[all[k]]
      ensures TakenNext(ranked, LeftAfter(left, all, k), covered + Facts(out[..k]), seen + Publishers(out[..k]), all[k])
      ensures k > 0 ==>
        !MayStop(ranked, LeftAfter(left, all, k), target, covered + Facts(out[..k]), seen + Publishers(out[..k]))
    {
      if k == 0 {
        assert covered + {} == covered && seen + {} == seen;
      } else {
        assert all[k] == at[k - 1] && out[k] == out[1..][k - 1];
        if k == 1 {
          assert covered' + {} == covered' && seen' + {} == seen';
        }
      }
    }
    if |out| == 1 {
      assert covered' + {} == covered' && seen' + {} == seen';
    }
  }

  lemma NothingTaken(left: set<nat>, at: seq<nat>)
    ensures LeftAfter(left, at, 0) == left
  {
  }

  lemma {:induction false} PicksInOrder(
      ranked: seq<Page>, target: set<nat>, ps: seq<Page>, pos: seq<nat>, covered: set<nat>, seen: set<nat>, room: nat,
      out: seq<Page>) returns (at: seq<nat>)
    requires Sits(ranked, ps, pos) && Picks(target, ps, covered, seen, room, out)
    ensures InOrder(ranked, Places(pos), target, covered, seen, room, out, at)
    decreases |ps|
  {
    hide Picks, Chosen, Enough, TakenNext, MayStop, Facts, Publishers, Without, InOrder, Sits, Places;
    if ps == [] || room == 0 {
      NothingPicked(target, ps, covered, seen, room, out);
      at := [];
      NoneInOrder(ranked, ps, pos, target, covered, seen, room);
    } else {
      var i := FirstPick(target, ps, covered, seen, room, out);
      ChosenIsNext(ranked, ps, pos, covered, seen, i);
      AtPlace(ranked, ps, pos, covered, seen, i, i) by { SameLength(ranked, ps, pos); }
      SameLength(ranked, ps, pos);
      WithoutSits(ranked, ps, pos, i);
      Shorter(ps, i);
      var covered', seen' := covered + ps[i].facts, seen + {ps[i].publisher};
      EnoughMayStop(ranked, Without(ps, i), Without(pos, i), target, covered', seen');
      var rest := [];
      if !Enough(target, Without(ps, i), covered', seen') {
        rest := PicksInOrder(ranked, target, Without(ps, i), Without(pos, i), covered', seen', room - 1, out[1..]);
      }
      FirstThenRest(ranked, Places(pos), target, covered, seen, room, out, pos[i], rest);
      at := [pos[i]] + rest;
    }
  }

  lemma SameLength(ranked: seq<Page>, ps: seq<Page>, pos: seq<nat>)
    requires Sits(ranked, ps, pos)
    ensures |pos| == |ps|
  {
  }

  lemma NoneInOrder(
      ranked: seq<Page>, ps: seq<Page>, pos: seq<nat>, target: set<nat>, covered: set<nat>, seen: set<nat>, room: nat)
    requires Sits(ranked, ps, pos) && (ps == [] || room == 0)
    ensures InOrder(ranked, Places(pos), target, covered, seen, room, [], [])
  {
    hide TakenNext, MayStop;
    if ps == [] {
      assert Places(pos) == {};
    }
  }

  // ---------------------------------------------------------------- the whole choice

  /** All places of the ranking. */
  ghost function Ranks(ranked: seq<Page>): (r: set<nat>)
    ensures forall i: nat :: i in r <==> i < |ranked|
  {
    if ranked == [] then {} else Ranks(ranked[..|ranked| - 1]) + {|ranked| - 1}
  }

  /** Each slot of the research choice goes to the page that comes first among those still left:
      trusted pages that add a fact before all others, then the pages that add most, with the stated
      order among equals; and the choice ends only where it may. */
  lemma ResearchTakesInOrder(ranked: seq<Page>, limit: nat, out: seq<Page>) returns (at: seq<nat>)
    requires ResearchChoice(ranked, limit, out)
    ensures InOrder(ranked, Ranks(ranked), Facts(ranked), {}, {}, limit, out, at)
  {
    hide Picks, InOrder, Facts;
    var pos := seq(|ranked|, i requires 0 <= i < |ranked| => i);
    assert Places(pos) == Ranks(ranked) by {
      forall i: nat ensures i in Places(pos) <==> i in Ranks(ranked) {
        if i < |ranked| { assert pos[i] == i; }
      }
    }
    assert Sits(ranked, ranked, pos);
    at := PicksInOrder(ranked, Facts(ranked), ranked, pos, {}, {}, limit, out);
  }

  // ---------------------------------------------------------------- the fast choice

  /** Two official pages of a direct source, at different addresses. */
  predicate TwoTrusted(ranked: seq<Page>) {
    exists i, j :: 0 <= i < |ranked| && 0 <= j < |ranked| && Trusted(ranked[i]) && Trusted(ranked[j])
                   && ranked[i].url != ranked[j].url
  }

  /** Among the trusted pages other than `gone`, the one at `i` adds most, and is the best ranked of
      those that add as much. */
  predicate TrustedMost(ranked: seq<Page>, covered: set<nat>, gone: set<nat>, i: nat) {
    && i < |ranked| && i !in gone && Trusted(ranked[i])
    && forall j :: 0 <= j < |ranked| && j !in gone && Trusted(ranked[j]) ==>
         var more, less := |ranked[i].facts - covered|, |ranked[j].facts - covered|;
         less < more || (less == more && i <= j)
  }

  /** The best-ranked page of a second publisher or, if there is none, the second page. */
  predicate SecondVoice(ranked: seq<Page>, i: nat) {
    && 0 < i < |ranked|
    && if exists j :: 0 <= j < |ranked| && ranked[j].publisher != ranked[0].publisher then
         && ranked[i].publisher != ranked[0].publisher
         && forall j :: 0 <= j < i ==> ranked[j].publisher == ranked[0].publisher
       else i == 1
  }

  ghost predicate FollowedBy(ranked: seq<Page>, limit: nat, out: seq<Page>, a: nat)
    requires a < |ranked|
  {
    limit >= 2 ==> |out| >= 2 && exists b: nat :: TrustedMost(ranked, ranked[a].facts, {a}, b) && out[1] == ranked[b]
  }

  /** Which pages fast mode takes, slot by slot. */
  ghost predicate FastInOrder(ranked: seq<Page>, limit: nat, out: seq<Page>) {
    if TwoTrusted(ranked) then
      && |out| == Min(limit, 2)
      && (limit >= 1 ==> exists a: nat :: TrustedMost(ranked, {}, {}, a) && out[0] == ranked[a] && FollowedBy(ranked, limit, out, a))
    else
      && |out| == Min(|ranked|, Min(limit, if exists p :: p in ranked && p.official then 1 else 2))
      && (|out| >= 1 ==> out[0] == ranked[0])
      && (|out| >= 2 ==> exists i: nat :: SecondVoice(ranked, i) && out[1] == ranked[i])
  }

  lemma MorePlaces(pos: seq<nat>, n: nat)
    ensures Places(pos + [n]) == Places(pos) + {n}
  {
    var more := pos + [n];
    assert more[|pos|] == n;
    forall i: nat ensures i in more <==> i in pos || i == n {
      if i in pos {
        var j :| 0 <= j < |pos| && pos[j] == i;
        assert more[j] == i;
      }
    }
  }

  lemma SitsInLonger(init: seq<Page>, last: Page, ps: seq<Page>, pos: seq<nat>)
    requires Sits(init, ps, pos)
    ensures Sits(init + [last], ps, pos) && Sits(init + [last], ps + [last], pos + [|init|])
  {
  }

  lemma {:induction false} TrustedPlaces(ranked: seq<Page>) returns (pos: seq<nat>)
    ensures Sits(ranked, TrustedOnly(ranked), pos)
    ensures forall i: nat :: i in Places(pos) <==> i < |ranked| && Trusted(ranked[i])
  {
    pos := [];
    if ranked != [] {
      var init, last := ranked[..|ranked| - 1], ranked[|ranked| - 1];
      assert ranked == init + [last];
      pos := TrustedPlaces(init);
      hide Sits, Places, Trusted;
      SitsInLonger(init, last, TrustedOnly(init), pos);
      MorePlaces(pos, |init|);
      if Trusted(last) {
        pos := pos + [|init|];
      } else {
        assert TrustedOnly(init) + [] == TrustedOnly(init);
      }
    }
  }

  lemma LargestIsMost(ranked: seq<Page>, ps: seq<Page>, pos: seq<nat>, covered: set<nat>, gone: set<nat>, i: nat)
    requires Sits(ranked, ps, pos) && Largest(ps, covered, i)
    requires forall j: nat :: j in Places(pos) <==> j < |ranked| && j !in gone && Trusted(ranked[j])
    ensures TrustedMost(ranked, covered, gone, pos[i])
  {
    assert pos[i] in Places(pos);
    forall p: nat | p < |ranked| && p !in gone && Trusted(ranked[p])
      ensures var more, less := |ranked[pos[i]].facts - covered|, |ranked[p].facts - covered|;
              less < more || (less == more && pos[i] <= p)
    {
      assert p in Places(pos);
      var j := InPlaces(pos, p);
      assert i <= j <==> pos[i] <= pos[j];
      assert Gain(ps[j], covered) == |ps[j].facts - covered| && Gain(ps[i], covered) == |ps[i].facts - covered|;
    }
  }

  lemma TwoTrustedIs(ranked: seq<Page>)
    ensures TwoTrusted(ranked) <==> |Urls(TrustedOnly(ranked))| >= 2
  {
    var trusted := TrustedOnly(ranked);
    TrustedOnlyIs(ranked);
    hide TrustedOnly;
    if TwoTrusted(ranked) {
      var i, j :| 0 <= i < |ranked| && 0 <= j < |ranked| && Trusted(ranked[i]) && Trusted(ranked[j])
                  && ranked[i].url != ranked[j].url;
      assert ranked[i] in trusted && ranked[j] in trusted;
      assert {ranked[i].url, ranked[j].url} <= Urls(trusted);
      Smaller({ranked[i].url, ranked[j].url}, Urls(trusted));
    }
    if |Urls(trusted)| >= 2 {
      var u :| u in Urls(trusted);
      assert Urls(trusted) == {u} + (Urls(trusted) - {u});
      var v :| v in Urls(trusted) - {u};
      var i :| 0 <= i < |trusted| && trusted[i].url == u;
      var j :| 0 <= j < |trusted| && trusted[j].url == v;
      assert trusted[i] in ranked && trusted[j] in ranked;
    }
  }

  /** `pos` gives the places of the trusted pages that are not gone. */
  ghost predicate TrustedLeft(ranked: seq<Page>, pos: seq<nat>, gone: set<nat>) {
    forall j: nat :: j in Places(pos) <==> j < |ranked| && j !in gone && Trusted(ranked[j])
  }

  lemma OneByGain(
      ranked: seq<Page>, ps: seq<Page>, pos: seq<nat>, covered: set<nat>, gone: set<nat>, room: nat, out: seq<Page>)
    returns (i: nat)
    requires Sits(ranked, ps, pos) && TrustedLeft(ranked, pos, gone) && ps != [] && room > 0
    requires ByGain(ps, covered, room, out)
    ensures i < |ps| == |pos| && out != [] && out[0] == ps[i] && pos[i] < |ranked| && ps[i] == ranked[pos[i]]
    ensures TrustedMost(ranked, covered, gone, pos[i])
    ensures ByGain(Without(ps, i), covered + ps[i].facts, room - 1, out[1..])
    ensures Sits(ranked, Without(ps, i), Without(pos, i)) && TrustedLeft(ranked, Without(pos, i), gone + {pos[i]})
  {
    i := FirstByGain(ps, covered, room, out);
    LargestIsPlaced(ps, covered, i);
    WithoutSits(ranked, ps, pos, i);
    hide ByGain, Largest, TrustedMost, Without;
    LargestIsMost(ranked, ps, pos, covered, gone, i);
  }

  lemma SecondByGain(
      ranked: seq<Page>, ps: seq<Page>, pos: seq<nat>, a: nat, room: nat, out: seq<Page>)
    requires a < |ranked| && ps != [] && room >= 1 && out != []
    requires Sits(ranked, ps, pos) && TrustedLeft(ranked, pos, {a})
    requires ByGain(ps, ranked[a].facts, room, out[1..])
    ensures FollowedBy(ranked, room + 1, out, a)
  {
    var k := OneByGain(ranked, ps, pos, ranked[a].facts, {a}, room, out[1..]);
    assert out[1] == out[1..][0];
  }

  lemma TwoByGainInOrder(ranked: seq<Page>, room: nat, out: seq<Page>)
    requires |TrustedOnly(ranked)| >= 2 && room <= 2 && ByGain(TrustedOnly(ranked), {}, room, out)
    ensures |out| == room
    ensures room >= 1 ==>
      exists a: nat :: TrustedMost(ranked, {}, {}, a) && out[0] == ranked[a] && FollowedBy(ranked, room, out, a)
  {
    var ps := TrustedOnly(ranked);
    var pos := TrustedPlaces(ranked);
    ByGainIsDistinct(ps, {}, room, out);
    assert TrustedLeft(ranked, pos, {});
    hide ByGain, TrustedOnly, TrustedMost, Without, Sits, TrustedLeft;
    if room >= 1 {
      var i := OneByGain(ranked, ps, pos, {}, {}, room, out);
      Shorter(ps, i);
      assert {} + ps[i].facts == ps[i].facts && {} + {pos[i]} == {pos[i]};
      if room >= 2 {
        SecondByGain(ranked, Without(ps, i), Without(pos, i), pos[i], room - 1, out);
      }
    }
  }

  lemma LargestIsPlaced(ps: seq<Page>, covered: set<nat>, i: nat)
    requires Largest(ps, covered, i)
    ensures i < |ps|
  {
  }

  lemma {:induction false} FirstVoices(ps: seq<Page>)
    requires ps != []
    ensures FirstOfEach(ps) != [] && FirstOfEach(ps)[0] == ps[0]
    ensures if exists j :: 0 <= j < |ps| && ps[j].publisher != ps[0].publisher
            then |FirstOfEach(ps)| >= 2 && exists i: nat :: SecondVoice(ps, i) && FirstOfEach(ps)[1] == ps[i]
            else FirstOfEach(ps) == [ps[0]] && Repeats(ps) == ps[1..]
  {
    var init, last := ps[..|ps| - 1], ps[|ps| - 1];
    if init == [] {
      assert FirstOfEach(init) == [] && Repeats(init) == [];
    } else {
      FirstVoices(init);
      assert init[0] == ps[0];
      assert ps[0].publisher in Publishers(init);
      if exists j :: 0 <= j < |init| && init[j].publisher != init[0].publisher {
        var i: nat :| SecondVoice(init, i) && FirstOfEach(init)[1] == init[i];
        SecondStays(ps, i);
        assert FirstOfEach(ps)[1] == ps[i];
      } else if last.publisher != ps[0].publisher {
        assert forall j :: 0 <= j < |init| ==> init[j] == ps[j];
        assert last.publisher !in Publishers(init);
        assert FirstOfEach(ps) == [ps[0]] + [last];
        assert SecondVoice(ps, |init|);
      } else {
        assert forall j :: 0 <= j < |init| ==> init[j] == ps[j];
        assert last.publisher in Publishers(init);
        assert Repeats(ps) == init[1..] + [last] == ps[1..];
      }
    }
  }

  lemma SecondStays(ps: seq<Page>, i: nat)
    requires ps != [] && SecondVoice(ps[..|ps| - 1], i)
    requires var init := ps[..|ps| - 1]; exists j :: 0 <= j < |init| && init[j].publisher != ps[0].publisher
    ensures SecondVoice(ps, i) && ps[i] == ps[..|ps| - 1][i]
  {
    var init := ps[..|ps| - 1];
    var j :| 0 <= j < |init| && init[j].publisher != ps[0].publisher;
    assert ps[j].publisher != ps[0].publisher && init[0] == ps[0];
    assert forall k :: 0 <= k < i ==> init[k] == ps[k];
  }

  lemma DiverseInOrder(ranked: seq<Page>, room: nat)
    requires room <= 2
    ensures var out := Diverse(ranked, room);
      && |out| == Min(|ranked|, room)
      && (|out| >= 1 ==> out[0] == ranked[0])
      && (|out| >= 2 ==> exists i: nat :: SecondVoice(ranked, i) && out[1] == ranked[i])
  {
    var out := Diverse(ranked, room);
    DiverseIsDiverse(ranked, room);
    if |out| >= 1 {
      FirstVoices(ranked);
      hide FirstOfEach, Repeats;
      if |out| >= 2 {
        if exists j :: 0 <= j < |ranked| && ranked[j].publisher != ranked[0].publisher {
          var i: nat :| SecondVoice(ranked, i) && FirstOfEach(ranked)[1] == ranked[i];
          assert out[1] == FirstOfEach(ranked)[1];
        } else {
          assert SecondVoice(ranked, 1) && out[1] == Repeats(ranked)[0] == ranked[1];
        }
      }
    }
  }

  /** With two trusted pages fast mode takes the one with the most facts and the one that adds most to
      it; otherwise the best-ranked page and, when none is official, the best-ranked page of a second
      publisher. */
  lemma FastTakesInOrder(ranked: seq<Page>, limit: nat, out: seq<Page>)
    requires FastChoice(ranked, limit, out)
    ensures FastInOrder(ranked, limit, out)
  {
    TwoTrustedIs(ranked);
    TrustedOnlyIs(ranked);
    hide ByGain, Diverse, TrustedOnly, TwoTrusted, TrustedMost, SecondVoice, Urls;
    if TwoTrusted(ranked) {
      TwoByGainInOrder(ranked, Min(limit, 2), out);
    } else {
      assert SomeOfficial(ranked) <==> exists p :: p in ranked && p.official;
      DiverseInOrder(ranked, Min(limit, if SomeOfficial(ranked) then 1 else 2));
    }
  }
}
