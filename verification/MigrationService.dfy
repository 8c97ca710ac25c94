/** The migration service: one run of `apply` over the store, with its report. */
module MigrationService {
  import opened Wrappers
  import opened Migration
  import opened MigrationApply

  class MigrationStore {
    var ledger: map<Key, Entry>
    var memories: map<nat, string>
    var archives: set<(nat, nat)>
    var nextId: nat

    function Now(): Store
      reads this
    {
      Store(ledger, memories, archives, nextId)
    }

    constructor ()
      ensures Now() == Store(map[], map[], {}, 0)
    {
      ledger, memories, archives, nextId := map[], map[], {}, 0;
    }

    method LedgerEntry(key: Key) returns (e: Option<Entry>)
      ensures e == if key in ledger then Some(ledger[key]) else None
    {
      e := if key in ledger then Some(ledger[key]) else None;
    }

    /** Whether the row is there already; `refused` stands for the write conflict. */
    method AlreadyFinished(key: Key, hash: nat, expected: Status) returns (finished: bool, refused: bool)
      ensures finished <==> key in ledger && ledger[key].hash == hash && ledger[key].status == expected
      ensures refused <==> key in ledger && !finished
    {
      if key !in ledger {
        return false, false;
      }
      finished := ledger[key].hash == hash && ledger[key].status == expected;
      refused := !finished;
    }

    method ImportMemory(r: Record) returns (ok: bool)
      requires r.disposition == Import
      modifies this
      ensures ok <==> Write(old(Now()), r).Some?
      ensures Now() == if ok then Write(old(Now()), r).value else old(Now())
    {
      var finished, refused := AlreadyFinished(r.key, r.hash, Imported);
      if finished || refused {
        return !refused;
      }
      memories := memories[nextId := r.content];
      ledger := ledger[r.key := Entry(r.hash, Imported, Some(nextId))];
      nextId := nextId + 1;
      ok := true;
    }

    method ArchiveRecord(r: Record) returns (ok: bool)
      requires r.disposition == Archive
      modifies this
      ensures ok <==> Write(old(Now()), r).Some?
      ensures Now() == if ok then Write(old(Now()), r).value else old(Now())
    {
      var finished, refused := AlreadyFinished(r.key, r.hash, Archived);
      if finished || refused {
        return !refused;
      }
      if (r.key.system, r.hash) !in archives {
        archives := archives + {(r.key.system, r.hash)};
      }
      ledger := ledger[r.key := Entry(r.hash, Archived, None)];
      ok := true;
    }
  }

  // ---------------------------------------------------------------- the report

  datatype Report = Report(imported: nat, archived: nat, skippedByPlan: nat, skippedIdempotent: nat, conflicts: nat)

  datatype Refusal = NoBackup | UnresolvedPlan | WriteConflict

  /** What a run does with a record, given the ledger it started from. */
  datatype Fate = ToImport | ToArchive | ByPlan | Idempotent | Conflicting

  function FateOf(base: map<Key, Entry>, r: Record): Fate {
    if r.disposition == Skip then ByPlan
    else if r.key in base then if base[r.key].hash == r.hash then Idempotent else Conflicting
    else if r.disposition == Archive then ToArchive
    else ToImport
  }

  ghost function Tally(base: map<Key, Entry>, rs: seq<Record>, f: Fate): nat {
    if rs == [] then 0
    else Tally(base, rs[..|rs| - 1], f) + if FateOf(base, rs[|rs| - 1]) == f then 1 else 0
  }

  ghost predicate Tallied(r: Report, base: map<Key, Entry>, rs: seq<Record>) {
    && r.imported == Tally(base, rs, ToImport)
    && r.archived == Tally(base, rs, ToArchive)
    && r.skippedByPlan == Tally(base, rs, ByPlan)
    && r.skippedIdempotent == Tally(base, rs, Idempotent)
    && r.conflicts == Tally(base, rs, Conflicting)
  }

  function Total(r: Report): nat {
    r.imported + r.archived + r.skippedByPlan + r.skippedIdempotent + r.conflicts
  }

  /** The five counters account for every record. */
  lemma ReportAddsUp(r: Report, base: map<Key, Entry>, rs: seq<Record>)
    requires Tallied(r, base, rs)
    ensures Total(r) == |rs|
  {
    AllFates(base, rs);
  }

  lemma {:induction false} AllFates(base: map<Key, Entry>, rs: seq<Record>)
    ensures Tally(base, rs, ToImport) + Tally(base, rs, ToArchive) + Tally(base, rs, ByPlan)
      + Tally(base, rs, Idempotent) + Tally(base, rs, Conflicting) == |rs|
  {
    if rs != [] {
      AllFates(base, rs[..|rs| - 1]);
    }
  }

  /** The records a counter counts. */
  ghost function Fated(base: map<Key, Entry>, rs: seq<Record>, f: Fate): set<int> {
    set n | 0 <= n < |rs| && FateOf(base, rs[n]) == f
  }

  lemma FatedStep(base: map<Key, Entry>, rs: seq<Record>, f: Fate)
    requires rs != []
    ensures var init, n := rs[..|rs| - 1], |rs| - 1;
      n !in Fated(base, init, f) &&
      Fated(base, rs, f) == if FateOf(base, rs[n]) == f then Fated(base, init, f) + {n} else Fated(base, init, f)
  {
    hide FateOf;
    var init, n := rs[..|rs| - 1], |rs| - 1;
    forall i ensures i in Fated(base, rs, f) <==> i in Fated(base, init, f) || (i == n && FateOf(base, rs[n]) == f) {
      if 0 <= i < n {
        assert init[i] == rs[i];
      }
    }
  }

  lemma {:induction false} TallyCounts(base: map<Key, Entry>, rs: seq<Record>, f: Fate)
    ensures Tally(base, rs, f) == |Fated(base, rs, f)|
  {
    if rs == [] {
      assert Fated(base, rs, f) == {};
    } else {
      TallyCounts(base, rs[..|rs| - 1], f);
      FatedStep(base, rs, f);
      hide Fated, FateOf;
    }
  }

  /** What each counter of a report counts, in terms of the plan and of the ledger the run started from. */
  lemma ReportMeans(r: Report, base: map<Key, Entry>, rs: seq<Record>)
    requires Tallied(r, base, rs)
    ensures r.imported == |set n | 0 <= n < |rs| && rs[n].disposition == Import && rs[n].key !in base|
    ensures r.archived == |set n | 0 <= n < |rs| && rs[n].disposition == Archive && rs[n].key !in base|
    ensures r.skippedByPlan == |set n | 0 <= n < |rs| && rs[n].disposition == Skip|
    ensures r.skippedIdempotent ==
      |set n | 0 <= n < |rs| && rs[n].disposition != Skip && rs[n].key in base && base[rs[n].key].hash == rs[n].hash|
    ensures r.conflicts ==
      |set n | 0 <= n < |rs| && rs[n].disposition != Skip && rs[n].key in base && base[rs[n].key].hash != rs[n].hash|
  {
    TallyCounts(base, rs, ToImport);
    TallyCounts(base, rs, ToArchive);
    TallyCounts(base, rs, ByPlan);
    TallyCounts(base, rs, Idempotent);
    TallyCounts(base, rs, Conflicting);
    assert Fated(base, rs, ToImport) == set n | 0 <= n < |rs| && rs[n].disposition == Import && rs[n].key !in base;
    assert Fated(base, rs, ToArchive) == set n | 0 <= n < |rs| && rs[n].disposition == Archive && rs[n].key !in base;
    assert Fated(base, rs, ByPlan) == set n | 0 <= n < |rs| && rs[n].disposition == Skip;
    assert Fated(base, rs, Idempotent) == set n | 0 <= n < |rs| && rs[n].disposition != Skip && rs[n].key in base
                                             && base[rs[n].key].hash == rs[n].hash;
    assert Fated(base, rs, Conflicting) == set n | 0 <= n < |rs| && rs[n].disposition != Skip && rs[n].key in base
                                              && base[rs[n].key].hash != rs[n].hash;
  }

  /** One run from the first record on, as the run of the interleaving model that no one disturbs. */
  ghost function Alone(plan: seq<Record>, start: Store, n: nat): Store
    requires n <= |plan|
  {
    if n == 0 then start
    else
      var s, r := Alone(plan, start, n - 1), plan[n - 1];
      if r.disposition == Skip || r.key in s.ledger || Write(s, r).None? then s else Write(s, r).value
  }

  /** Besides what it started with, the ledger knows only keys of records already passed. */
  lemma {:induction false} AloneKnows(plan: seq<Record>, start: Store, n: nat)
    requires n <= |plan|
    ensures forall k :: k in start.ledger ==> k in Alone(plan, start, n).ledger && Alone(plan, start, n).ledger[k] == start.ledger[k]
    ensures forall k :: k in Alone(plan, start, n).ledger ==> k in start.ledger || exists i :: 0 <= i < n && plan[i].key == k
  {
    if n > 0 {
      AloneKnows(plan, start, n - 1);
    }
  }

  lemma PassedOnce(plan: seq<Record>, start: Store, n: nat)
    requires n < |plan| && UniqueKeys(plan)
    ensures plan[n].key in Alone(plan, start, n).ledger <==> plan[n].key in start.ledger
    ensures plan[n].key in start.ledger ==> Alone(plan, start, n).ledger[plan[n].key] == start.ledger[plan[n].key]
  {
    AloneKnows(plan, start, n);
  }

  /** A run of `apply`; `manifests` is the number of verified source manifests. */
  method Apply(store: MigrationStore, plan: Plan, issues: seq<string>, manifests: nat, backupVerified: bool)
    returns (r: Result<Report, Refusal>)
    requires UniqueKeys(plan.records)
    modifies store
    ensures r.Err? <==> !backupVerified || manifests == 0 || plan.conflicts != [] || issues != []
    ensures r.Err? ==> store.Now() == old(store.Now())
    ensures r.Ok? ==> Tallied(r.value, old(store.ledger), plan.records)
    ensures r.Ok? ==> store.Now() == Alone(plan.records, old(store.Now()), |plan.records|)
  {
    if !backupVerified || manifests == 0 {
      return Err(NoBackup);
    }
    if plan.conflicts != [] || issues != [] {
      return Err(UnresolvedPlan);
    }
    var imported, archived, skippedPlan, skippedIdempotent, conflicts := 0, 0, 0, 0, 0;
    var rs := plan.records;
    ghost var start := store.Now();
    for n := 0 to |rs|
      invariant store.Now() == Alone(rs, start, n)
      invariant Tallied(Report(imported, archived, skippedPlan, skippedIdempotent, conflicts), start.ledger, rs[..n])
    {
      assert rs[..n + 1][..n] == rs[..n];
      PassedOnce(rs, start, n);
      var record := rs[n];
      if record.disposition == Skip {
        skippedPlan := skippedPlan + 1;
        continue;
      }
      var existing := store.LedgerEntry(record.key);
      if existing.Some? {
        if existing.value.hash == record.hash {
          skippedIdempotent := skippedIdempotent + 1;
        } else {
          conflicts := conflicts + 1;
        }
        continue;
      }
      if record.disposition == Archive {
        var ok := store.ArchiveRecord(record);
        if !ok {
          return Err(WriteConflict);
        }
        archived := archived + 1;
        continue;
      }
      var ok := store.ImportMemory(record);
      if !ok {
        return Err(WriteConflict);
      }
      imported := imported + 1;
    }
    assert rs[..|rs|] == rs;
    r := Ok(Report(imported, archived, skippedPlan, skippedIdempotent, conflicts));
  }

  // ---------------------------------------------------------------- one run is every run

  /** A run on its own leaves the ledger that every interleaving ends with. */
  lemma {:induction false} AloneIsFinal(plan: seq<Record>, start: Store, n: nat)
    requires n <= |plan| && UniqueKeys(plan) && StoreOk(start)
    ensures Ledger(Alone(plan, start, n)) == Final(start.ledger, plan, n)
    ensures StoreOk(Alone(plan, start, n))
  {
    if n > 0 {
      AloneIsFinal(plan, start, n - 1);
      var s, r := Alone(plan, start, n - 1), plan[n - 1];
      LedgerKeys(s, r.key);
      hide StoreOk, Ledger, Write;
      if r.disposition != Skip && r.key !in s.ledger {
        WriteSays(s, r);
        WriteKeepsStore(s, r);
      }
    }
  }

  lemma LedgerKeys(s: Store, k: Key)
    ensures k in Ledger(s) <==> k in s.ledger
  {
  }

  lemma WriteSays(s: Store, r: Record)
    requires r.key !in s.ledger
    ensures Write(s, r).Some? && Ledger(Write(s, r).value) == Ledger(s)[r.key := (r.hash, StatusOf(r))]
  {
  }

  /** Replay: after any crashes, restarts and concurrent runs, as soon as one run has come to the
      end the ledger is the one a single undisturbed run leaves. */
  lemma ReplayEqualsOneRun(plan: seq<Record>, start: Store, actions: seq<Action>, id: nat)
    requires UniqueKeys(plan) && StoreOk(start)
    requires var w := Exec(plan, start, actions); id in w.runs && w.runs[id].pos == |plan|
    ensures Ledger(Exec(plan, start, actions).store) == Ledger(Alone(plan, start, |plan|))
    ensures var s := Exec(plan, start, actions).store;
      |s.memories| == |set k | k in s.ledger && IsImported(s, k)|
  {
    ReplayIsSafe(plan, start, actions, id);
    AloneIsFinal(plan, start, |plan|);
    hide Exec, Alone, Final, StoreOk, Ledger;
    OneMemoryPerImport(Exec(plan, start, actions).store);
  }

  /** Running once more after a complete run imports and archives nothing. */
  lemma {:induction false} SecondRunIsIdle(plan: seq<Record>, start: Store, n: nat)
    requires n <= |plan| && UniqueKeys(plan)
    ensures var done := Alone(plan, start, |plan|);
      && Alone(plan, done, n) == done
      && Tally(done.ledger, plan[..n], ToImport) == 0 && Tally(done.ledger, plan[..n], ToArchive) == 0
  {
    var done := Alone(plan, start, |plan|);
    if n > 0 {
      SecondRunIsIdle(plan, start, n - 1);
      PassedIsKnown(plan, start, |plan|, n - 1);
      assert plan[..n][..n - 1] == plan[..n - 1];
    }
  }

  lemma {:induction false} PassedIsKnown(plan: seq<Record>, start: Store, n: nat, i: nat)
    requires i < n <= |plan|
    ensures plan[i].disposition != Skip ==> plan[i].key in Alone(plan, start, n).ledger
  {
    if i < n - 1 {
      PassedIsKnown(plan, start, n - 1, i);
    }
  }
}
