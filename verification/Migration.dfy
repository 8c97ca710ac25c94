/** Memory migration: planning, and applying a plan to a store that survives crashes, repeats and
    several appliers at once. One tenant and one migration version are modelled; a content stands
    for its hash. */
module Migration {
  import opened Wrappers

  datatype Key = Key(system: nat, id: nat)

  datatype Disposition = Import | Archive | Skip

  datatype Record = Record(
    key: Key, hash: nat, content: string, disposition: Disposition, duplicateOf: Option<Key>)

  // ---------------------------------------------------------------- planning

  datatype Plan = Plan(
    records: seq<Record>, conflicts: seq<Key>, identities: map<Key, nat>, imported: map<string, Key>)

  function Planned(p: Plan, r: Record): Plan {
    if r.key in p.identities then
      if p.identities[r.key] != r.hash then p.(conflicts := p.conflicts + [r.key]) else p
    else
      var named := p.(identities := p.identities[r.key := r.hash]);
      if r.disposition != Import then named.(records := p.records + [r])
      else if r.content in p.imported then
        named.(records := p.records + [Record(r.key, r.hash, "", Skip, Some(p.imported[r.content]))])
      else
        named.(imported := p.imported[r.content := r.key], records := p.records + [r])
  }

  ghost function PlanOf(rs: seq<Record>): Plan {
    if rs == [] then Plan([], [], map[], map[]) else Planned(PlanOf(rs[..|rs| - 1]), rs[|rs| - 1])
  }

  ghost function Flat(sources: seq<seq<Record>>): seq<Record> {
    if sources == [] then [] else Flat(sources[..|sources| - 1]) + sources[|sources| - 1]
  }

  lemma PlanOfNext(before: seq<Record>, source: seq<Record>, m: nat)
    requires m < |source|
    ensures PlanOf(before + source[..m + 1]) == Planned(PlanOf(before + source[..m]), source[m])
  {
    assert before + source[..m + 1] == before + source[..m] + [source[m]];
    assert (before + source[..m + 1])[..|before| + m] == before + source[..m];
  }

  lemma NothingPlanned()
    ensures PlanOf(Flat([])) == Plan([], [], map[], map[])
  {
  }

  lemma FlatNext(sources: seq<seq<Record>>, n: nat)
    requires n < |sources|
    ensures Flat(sources[..n + 1]) == Flat(sources[..n]) + sources[n]
    ensures Flat(sources[..n]) + sources[n][..0] == Flat(sources[..n])
  {
    assert sources[..n + 1][..n] == sources[..n];
  }

  method Build(sources: seq<seq<Record>>) returns (plan: Plan)
    ensures plan == PlanOf(Flat(sources))
  {
    NothingPlanned();
    hide PlanOf, Flat;
    var records: seq<Record>, conflicts: seq<Key> := [], [];
    var identities: map<Key, nat>, imported: map<string, Key> := map[], map[];
    for n := 0 to |sources|
      invariant Plan(records, conflicts, identities, imported) == PlanOf(Flat(sources[..n]))
    {
      FlatNext(sources, n);
      var source := sources[n];
      ghost var before := Flat(sources[..n]);
      for m := 0 to |source|
        invariant Plan(records, conflicts, identities, imported) == PlanOf(before + source[..m])
      {
        var r := source[m];
        PlanOfNext(before, source, m);
        if r.key in identities {
          if identities[r.key] != r.hash {
            conflicts := conflicts + [r.key];
          }
          continue;
        }
        identities := identities[r.key := r.hash];
        if r.disposition == Import {
          if r.content in imported {
            r := Record(r.key, r.hash, "", Skip, Some(imported[r.content]));
          } else {
            imported := imported[r.content := r.key];
          }
        }
        records := records + [r];
      }
      assert source[..|source|] == source;
    }
    assert sources[..|sources|] == sources;
    plan := Plan(records, conflicts, identities, imported);
  }

  predicate UniqueKeys(rs: seq<Record>) {
    forall i, j :: 0 <= i < j < |rs| ==> rs[i].key != rs[j].key
  }

  predicate UniqueImports(rs: seq<Record>) {
    forall i, j :: 0 <= i < j < |rs| && rs[i].disposition == Import && rs[j].disposition == Import ==>
      rs[i].content != rs[j].content
  }

  /** The planner's bookkeeping of identities. */
  predicate KeysOk(p: Plan) {
    && UniqueKeys(p.records)
    && forall i :: 0 <= i < |p.records| ==>
         p.records[i].key in p.identities && p.identities[p.records[i].key] == p.records[i].hash
  }

  /** The planner's bookkeeping of contents. */
  predicate ImportsOk(p: Plan) {
    forall i :: 0 <= i < |p.records| && p.records[i].disposition == Import ==>
      p.records[i].content in p.imported && p.imported[p.records[i].content] == p.records[i].key
  }

  ghost predicate HasImport(rs: seq<Record>, content: string, key: Key) {
    exists r :: r in rs && r.disposition == Import && r.content == content && r.key == key
  }

  ghost predicate ImportedIsThere(p: Plan) {
    forall c :: c in p.imported ==> HasImport(p.records, c, p.imported[c])
  }

  lemma PlannedKeepsKeys(p: Plan, r: Record)
    requires KeysOk(p)
    ensures KeysOk(Planned(p, r))
  {
    var p' := Planned(p, r);
    if r.key !in p.identities {
      forall i | 0 <= i < |p.records| ensures p.records[i].key != r.key && p'.records[i] == p.records[i] {
      }
    }
  }

  lemma PlannedKeepsImports(p: Plan, r: Record)
    requires ImportsOk(p)
    ensures ImportsOk(Planned(p, r))
  {
  }

  lemma PlannedKeepsThere(p: Plan, r: Record)
    requires ImportedIsThere(p)
    ensures ImportedIsThere(Planned(p, r))
  {
    var p' := Planned(p, r);
    forall c | c in p'.imported ensures HasImport(p'.records, c, p'.imported[c]) {
      if c in p.imported {
        var x :| x in p.records && x.disposition == Import && x.content == c && x.key == p.imported[c];
        assert x in p'.records;
      } else {
        assert r in p'.records;
      }
    }
  }

  lemma {:induction false} PlanIsOk(rs: seq<Record>)
    ensures var p := PlanOf(rs); KeysOk(p) && ImportsOk(p) && ImportedIsThere(p)
  {
    if rs != [] {
      var p, r := PlanOf(rs[..|rs| - 1]), rs[|rs| - 1];
      PlanIsOk(rs[..|rs| - 1]);
      hide KeysOk, ImportsOk, ImportedIsThere, Planned;
      PlannedKeepsKeys(p, r);
      PlannedKeepsImports(p, r);
      PlannedKeepsThere(p, r);
    }
  }

  /** A plan names each source identity once and imports each content at most once. */
  lemma PlanIsUnique(rs: seq<Record>)
    ensures UniqueKeys(PlanOf(rs).records) && UniqueImports(PlanOf(rs).records)
  {
    PlanIsOk(rs);
    hide PlanOf, ImportedIsThere;
  }

  // ---------------------------------------------------------------- identities and conflicts

  /** The hash with which an identity first occurs. */
  ghost function FirstHash(rs: seq<Record>, k: Key): Option<nat> {
    if rs == [] then None
    else
      var before, r := FirstHash(rs[..|rs| - 1], k), rs[|rs| - 1];
      if before.Some? then before else if r.key == k then Some(r.hash) else None
  }

  ghost predicate NamedBy(identities: map<Key, nat>, rs: seq<Record>, k: Key) {
    FirstHash(rs, k) == if k in identities then Some(identities[k]) else None
  }

  lemma {:induction false} IdentitiesAreFirst(rs: seq<Record>, k: Key)
    ensures NamedBy(PlanOf(rs).identities, rs, k)
  {
    if rs != [] {
      IdentitiesAreFirst(rs[..|rs| - 1], k);
    }
  }

  lemma {:induction false} FirstHashOccurs(rs: seq<Record>, k: Key)
    ensures FirstHash(rs, k).Some? ==> exists i :: 0 <= i < |rs| && rs[i].key == k && rs[i].hash == FirstHash(rs, k).value
    ensures FirstHash(rs, k).None? ==> forall i :: 0 <= i < |rs| ==> rs[i].key != k
  {
    if rs != [] {
      var init := rs[..|rs| - 1];
      FirstHashOccurs(init, k);
      if FirstHash(init, k).Some? {
        var i :| 0 <= i < |init| && init[i].key == k && init[i].hash == FirstHash(init, k).value;
        assert rs[i].key == k;
      } else {
        assert forall i :: 0 <= i < |init| ==> rs[i] == init[i];
      }
    }
  }

  /** A record that does not have its identity's first hash. */
  ghost predicate Odd(rs: seq<Record>, i: nat)
    requires i < |rs|
  {
    FirstHash(rs, rs[i].key) != Some(rs[i].hash)
  }

  lemma OddStays(rs: seq<Record>, i: nat)
    requires i < |rs| - 1
    ensures Odd(rs, i) <==> Odd(rs[..|rs| - 1], i)
  {
    var init := rs[..|rs| - 1];
    FirstHashOccurs(init, rs[i].key);
    assert init[i] == rs[i];
  }

  lemma {:induction false} ConflictsAreOdd(rs: seq<Record>, k: Key)
    ensures k in PlanOf(rs).conflicts <==> exists i: nat :: i < |rs| && rs[i].key == k && Odd(rs, i)
  {
    if rs != [] {
      var init, n := rs[..|rs| - 1], |rs| - 1;
      ConflictsAreOdd(init, k);
      IdentitiesAreFirst(init, rs[n].key);
      assert PlanOf(rs).conflicts == PlanOf(init).conflicts + if Odd(rs, n) then [rs[n].key] else [];
      forall i: nat | i < n ensures rs[i] == init[i] && (Odd(rs, i) <==> Odd(init, i)) {
        OddStays(rs, i);
      }
      hide PlanOf, Odd;
      if i: nat :| i < |init| && init[i].key == k && Odd(init, i) {
        assert rs[i].key == k && Odd(rs, i);
      }
    }
  }

  ghost predicate Disagree(rs: seq<Record>, k: Key) {
    exists i, j :: 0 <= i < j < |rs| && rs[i].key == rs[j].key == k && rs[i].hash != rs[j].hash
  }

  /** The conflicts of a plan are exactly the source identities that occur with two different hashes. */
  lemma ConflictsIff(rs: seq<Record>, k: Key)
    ensures k in PlanOf(rs).conflicts <==> Disagree(rs, k)
  {
    ConflictsAreOdd(rs, k);
    hide PlanOf;
    if i: nat :| i < |rs| && rs[i].key == k && Odd(rs, i) {
      FirstHashOccurs(rs, k);
      var f :| 0 <= f < |rs| && rs[f].key == k && rs[f].hash == FirstHash(rs, k).value;
      if f < i {
        assert rs[f].key == rs[i].key == k;
      } else {
        assert rs[i].key == rs[f].key == k;
      }
    }
    if Disagree(rs, k) {
      var i: nat, j: nat :| i < j < |rs| && rs[i].key == rs[j].key == k && rs[i].hash != rs[j].hash;
      assert Odd(rs, i) || Odd(rs, j);
    }
  }

  // ---------------------------------------------------------------- every first occurrence is planned

  /** No earlier record has this record's identity. */
  predicate IsFirst(rs: seq<Record>, i: nat)
    requires i < |rs|
  {
    forall j :: 0 <= j < i ==> rs[j].key != rs[i].key
  }

  /** The record that imports a content: the first of its own identity, and the first such. */
  predicate Imports(rs: seq<Record>, j: nat, content: string)
    requires j < |rs|
  {
    && IsFirst(rs, j) && rs[j].disposition == Import && rs[j].content == content
    && forall i :: 0 <= i < j ==> !(IsFirst(rs, i) && rs[i].disposition == Import && rs[i].content == content)
  }

  /** Record i as it is planned: as it is, unless another record imports the same content; then it is
      skipped as that one's duplicate. */
  ghost predicate PlannedAs(rs: seq<Record>, i: nat, r: Record)
    requires i < |rs|
  {
    if rs[i].disposition == Import && !Imports(rs, i, rs[i].content) then
      && r.key == rs[i].key && r.hash == rs[i].hash && r.disposition == Skip && r.content == ""
      && exists j: nat :: j < i && Imports(rs, j, rs[i].content) && r.duplicateOf == Some(rs[j].key)
    else r == rs[i]
  }

  /** `at` lists in order the places of the first occurrences, and `records` what each is planned as. */
  ghost predicate PlansAll(rs: seq<Record>, records: seq<Record>, at: seq<nat>) {
    && |records| == |at|
    && (forall a, b :: 0 <= a < b < |at| ==> at[a] < at[b])
    && (forall a :: 0 <= a < |at| ==> at[a] < |rs| && IsFirst(rs, at[a]) && PlannedAs(rs, at[a], records[a]))
    && (forall i: nat :: i < |rs| && IsFirst(rs, i) ==> i in at)
  }

  /** The planner's maps, in terms of the records read so far. */
  ghost predicate MapsTell(rs: seq<Record>, p: Plan) {
    && KeysTold(rs, p)
    && (forall c :: c in p.imported ==> ImportTold(rs, c, p.imported[c]))
    && (forall j: nat :: j < |rs| && IsFirst(rs, j) && rs[j].disposition == Import ==> rs[j].content in p.imported)
  }

  ghost predicate KeysTold(rs: seq<Record>, p: Plan) {
    forall k :: k in p.identities <==> exists i :: 0 <= i < |rs| && rs[i].key == k
  }

  ghost predicate ImportTold(rs: seq<Record>, content: string, k: Key) {
    exists j: nat :: j < |rs| && Imports(rs, j, content) && k == rs[j].key
  }

  lemma ImportTellsMore(rs: seq<Record>, content: string, k: Key)
    requires rs != [] && ImportTold(rs[..|rs| - 1], content, k)
    ensures ImportTold(rs, content, k)
  {
    var init := rs[..|rs| - 1];
    var j: nat :| j < |init| && Imports(init, j, content) && k == init[j].key;
    SameBefore(rs, j);
  }

  lemma SameBefore(rs: seq<Record>, i: nat)
    requires i < |rs| - 1
    ensures var init := rs[..|rs| - 1];
      && init[i] == rs[i] && (IsFirst(init, i) <==> IsFirst(rs, i))
      && forall c :: Imports(init, i, c) <==> Imports(rs, i, c)
  {
    var init := rs[..|rs| - 1];
    forall j: nat | j <= i ensures init[j] == rs[j] && (IsFirst(init, j) <==> IsFirst(rs, j)) {
      assert forall k :: 0 <= k < j ==> init[k] == rs[k];
    }
    hide IsFirst;
  }

  lemma PlannedBefore(rs: seq<Record>, i: nat, r: Record)
    requires i < |rs| - 1 && PlannedAs(rs[..|rs| - 1], i, r)
    ensures PlannedAs(rs, i, r)
  {
    var init := rs[..|rs| - 1];
    forall j: nat | j <= i ensures init[j] == rs[j] && forall c :: Imports(init, j, c) <==> Imports(rs, j, c) {
      SameBefore(rs, j);
    }
    hide Imports;
    if rs[i].disposition == Import && !Imports(rs, i, rs[i].content) {
      var j: nat :| j < i && Imports(init, j, rs[i].content) && r.duplicateOf == Some(init[j].key);
      assert Imports(rs, j, rs[i].content);
    }
  }

  lemma MapsStep(rs: seq<Record>, p: Plan)
    requires rs != [] && MapsTell(rs[..|rs| - 1], p)
    ensures MapsTell(rs, Planned(p, rs[|rs| - 1]))
  {
    KeysTell(rs, p);
    ContentsTell(rs, p);
    ImportsStep(rs, p);
    FirstsStep(rs, p);
    hide Imports, IsFirst, KeysTold, ImportTold, Planned;
  }

  lemma ImportsStep(rs: seq<Record>, p: Plan)
    requires rs != [] && MapsTell(rs[..|rs| - 1], p)
    ensures var t := Planned(p, rs[|rs| - 1]); forall c :: c in t.imported ==> ImportTold(rs, c, t.imported[c])
  {
    var n := |rs| - 1;
    KeysTell(rs, p);
    ContentsTell(rs, p);
    var t := Planned(p, rs[n]);
    hide Imports, IsFirst, KeysTold, ImportTold;
    forall c | c in t.imported ensures ImportTold(rs, c, t.imported[c]) {
      if c in p.imported && t.imported[c] == p.imported[c] {
        ImportTellsMore(rs, c, p.imported[c]);
      } else {
        LastTells(rs, c);
      }
    }
  }

  lemma FirstsStep(rs: seq<Record>, p: Plan)
    requires rs != [] && MapsTell(rs[..|rs| - 1], p)
    ensures var t := Planned(p, rs[|rs| - 1]);
      forall j: nat :: j < |rs| && IsFirst(rs, j) && rs[j].disposition == Import ==> rs[j].content in t.imported
  {
    var init, n := rs[..|rs| - 1], |rs| - 1;
    KeysTell(rs, p);
    var t := Planned(p, rs[n]);
    forall j: nat | j < |rs| && IsFirst(rs, j) && rs[j].disposition == Import ensures rs[j].content in t.imported {
      if j < n {
        SameBefore(rs, j);
        hide IsFirst, Imports, KeysTold, ImportTold;
        assert IsFirst(init, j);
      }
    }
  }

  lemma LastTells(rs: seq<Record>, content: string)
    requires rs != [] && Imports(rs, |rs| - 1, content)
    ensures ImportTold(rs, content, rs[|rs| - 1].key)
  {
  }

  lemma KeysTell(rs: seq<Record>, p: Plan)
    requires rs != [] && MapsTell(rs[..|rs| - 1], p)
    ensures rs[|rs| - 1].key in p.identities <==> !IsFirst(rs, |rs| - 1)
    ensures KeysTold(rs, Planned(p, rs[|rs| - 1]))
  {
    var init, n := rs[..|rs| - 1], |rs| - 1;
    hide Imports;
    forall k ensures k in Planned(p, rs[n]).identities <==> exists i :: 0 <= i < |rs| && rs[i].key == k {
      if i :| 0 <= i < |init| && init[i].key == k {
        assert rs[i].key == k;
      }
      if i :| 0 <= i < |rs| && rs[i].key == k {
        assert i < n ==> init[i].key == k;
      }
    }
    if i :| 0 <= i < |init| && init[i].key == rs[n].key {
      assert rs[i].key == rs[n].key;
    }
    if !IsFirst(rs, n) {
      var i :| 0 <= i < n && rs[i].key == rs[n].key;
      assert init[i].key == rs[n].key;
    }
  }

  lemma ContentsTell(rs: seq<Record>, p: Plan)
    requires rs != [] && MapsTell(rs[..|rs| - 1], p)
    ensures var n := |rs| - 1;
      IsFirst(rs, n) && rs[n].disposition == Import ==>
        (rs[n].content in p.imported <==> !Imports(rs, n, rs[n].content))
  {
    var init, n := rs[..|rs| - 1], |rs| - 1;
    if IsFirst(rs, n) && rs[n].disposition == Import {
      if rs[n].content in p.imported {
        var j: nat :| j < |init| && Imports(init, j, rs[n].content) && p.imported[rs[n].content] == init[j].key;
        SameBefore(rs, j);
      } else {
        forall i | 0 <= i < n
          ensures !(IsFirst(rs, i) && rs[i].disposition == Import && rs[i].content == rs[n].content)
        {
          SameBefore(rs, i);
          assert IsFirst(init, i) ==> init[i].disposition == Import ==> init[i].content in p.imported;
        }
      }
    }
  }

  lemma LastIsPlanned(rs: seq<Record>, p: Plan)
    requires rs != [] && MapsTell(rs[..|rs| - 1], p) && IsFirst(rs, |rs| - 1)
    ensures exists r :: Planned(p, rs[|rs| - 1]).records == p.records + [r] && PlannedAs(rs, |rs| - 1, r)
  {
    var init, n := rs[..|rs| - 1], |rs| - 1;
    KeysTell(rs, p);
    ContentsTell(rs, p);
    hide IsFirst, Imports, KeysTold;
    if rs[n].disposition == Import && rs[n].content in p.imported {
      assert ImportTold(init, rs[n].content, p.imported[rs[n].content]);
      var j: nat :| j < |init| && Imports(init, j, rs[n].content) && p.imported[rs[n].content] == init[j].key;
      SameBefore(rs, j);
      var skip := Record(rs[n].key, rs[n].hash, "", Skip, Some(rs[j].key));
      assert Imports(rs, j, rs[n].content) && PlannedAs(rs, n, skip);
      assert Planned(p, rs[n]).records == p.records + [skip];
    } else {
      assert PlannedAs(rs, n, rs[n]);
      assert Planned(p, rs[n]).records == p.records + [rs[n]];
    }
  }

  lemma PlannedStays(rs: seq<Record>, records: seq<Record>, at: seq<nat>)
    requires rs != [] && PlansAll(rs[..|rs| - 1], records, at)
    ensures forall a :: 0 <= a < |at| ==> at[a] < |rs| - 1 && IsFirst(rs, at[a]) && PlannedAs(rs, at[a], records[a])
    ensures forall i: nat :: i < |rs| - 1 && IsFirst(rs, i) ==> i in at
  {
    hide PlannedAs, IsFirst;
    forall a | 0 <= a < |at| ensures IsFirst(rs, at[a]) && PlannedAs(rs, at[a], records[a]) {
      SameBefore(rs, at[a]);
      PlannedBefore(rs, at[a], records[a]);
    }
    forall i: nat | i < |rs| - 1 && IsFirst(rs, i) ensures i in at {
      SameBefore(rs, i);
    }
  }

  lemma RepeatPlansNothing(rs: seq<Record>, records: seq<Record>, at: seq<nat>)
    requires rs != [] && PlansAll(rs[..|rs| - 1], records, at) && !IsFirst(rs, |rs| - 1)
    ensures PlansAll(rs, records, at)
  {
    PlannedStays(rs, records, at);
    hide PlannedAs, IsFirst;
  }

  lemma FirstPlansOne(rs: seq<Record>, records: seq<Record>, at: seq<nat>, r: Record)
    requires rs != [] && PlansAll(rs[..|rs| - 1], records, at)
    requires IsFirst(rs, |rs| - 1) && PlannedAs(rs, |rs| - 1, r)
    ensures PlansAll(rs, records + [r], at + [|rs| - 1])
  {
    PlannedStays(rs, records, at);
    hide PlannedAs, IsFirst;
    var n := |rs| - 1;
    var more, all := at + [n], records + [r];
    forall a | 0 <= a < |more| ensures more[a] < |rs| && IsFirst(rs, more[a]) && PlannedAs(rs, more[a], all[a]) {
      if a < |at| {
        assert more[a] == at[a] && all[a] == records[a];
      }
    }
    forall i: nat | i < |rs| && IsFirst(rs, i) ensures i in more {
      if i == n {
        assert more[|at|] == n;
      } else {
        assert i in at;
      }
    }
  }

  /** The plan has one record for each source identity, in the order in which the identities first occur:
      the first record of that identity as it is, or a skip that names the record which imports the
      same content. No record that should be archived, skipped or imported is dropped. */
  lemma {:induction false} EveryFirstIsPlanned(rs: seq<Record>) returns (at: seq<nat>)
    ensures PlansAll(rs, PlanOf(rs).records, at)
    ensures MapsTell(rs, PlanOf(rs))
  {
    at := [];
    if rs != [] {
      var init, n := rs[..|rs| - 1], |rs| - 1;
      var p := PlanOf(init);
      at := EveryFirstIsPlanned(init);
      MapsStep(rs, p);
      KeysTell(rs, p);
      if IsFirst(rs, n) {
        LastIsPlanned(rs, p);
        var r :| Planned(p, rs[n]).records == p.records + [r] && PlannedAs(rs, n, r);
        FirstPlansOne(rs, p.records, at, r);
        at := at + [n];
      } else {
        RepeatPlansNothing(rs, p.records, at);
      }
    }
  }

  /** No content is lost to de-duplication: what the first record of an identity wants imported is
      imported by some record of the plan. */
  lemma NoContentLost(rs: seq<Record>, i: nat)
    requires i < |rs| && rs[i].disposition == Import && FirstHash(rs[..i], rs[i].key) == None
    ensures exists k :: HasImport(PlanOf(rs).records, rs[i].content, k)
  {
    PlanIsOk(rs);
    ImportedGrows(rs, i);
    assert HasImport(PlanOf(rs).records, rs[i].content, PlanOf(rs).imported[rs[i].content]);
  }

  lemma {:induction false} ImportedGrows(rs: seq<Record>, i: nat)
    requires i < |rs| && rs[i].disposition == Import && FirstHash(rs[..i], rs[i].key) == None
    ensures rs[i].content in PlanOf(rs).imported
    decreases |rs|
  {
    var init := rs[..|rs| - 1];
    if i == |rs| - 1 {
      IdentitiesAreFirst(init, rs[i].key);
    } else {
      assert init[i] == rs[i] && init[..i] == rs[..i];
      ImportedGrows(init, i);
    }
  }
}
