/** Applying a migration plan: each write puts the target row and its ledger row into the store in
    one transaction, and a run may stop anywhere, start again, or meet other runs. */
module MigrationApply {
  import opened Wrappers
  import opened Migration

  datatype Status = Imported | Archived

  datatype Entry = Entry(hash: nat, status: Status, target: Option<nat>)

  /** `memories` holds the content of each memory item by identifier, `archives` the system and
      hash of each archived record; `nextId` is the supply of fresh identifiers. */
  datatype Store = Store(
    ledger: map<Key, Entry>, memories: map<nat, string>, archives: set<(nat, nat)>, nextId: nat)

  function StatusOf(r: Record): Status {
    if r.disposition == Archive then Archived else Imported
  }

  /** The write transaction: nothing if the row is there already, refused if the identity has a
      different row. */
  function Write(s: Store, r: Record): Option<Store> {
    if r.key in s.ledger then
      if s.ledger[r.key].hash == r.hash && s.ledger[r.key].status == StatusOf(r) then Some(s) else None
    else if r.disposition == Archive then
      Some(s.(ledger := s.ledger[r.key := Entry(r.hash, Archived, None)], archives := s.archives + {(r.key.system, r.hash)}))
    else
      Some(Store(s.ledger[r.key := Entry(r.hash, Imported, Some(s.nextId))], s.memories[s.nextId := r.content],
        s.archives, s.nextId + 1))
  }

  // ---------------------------------------------------------------- runs in any interleaving

  /** A run of `apply`: the record it is at, and whether it has looked the record up and found no
      ledger row. */
  datatype Run = Run(pos: nat, decided: bool)

  datatype World = World(store: Store, runs: map<nat, Run>)

  /** `Start` also restarts a run from the first record; `Crash` ends it anywhere. */
  datatype Action = Start(run: nat) | Step(run: nat) | Crash(run: nat)

  function Stepped(plan: seq<Record>, w: World, id: nat): World
    requires id in w.runs
  {
    var run := w.runs[id];
    if run.pos >= |plan| then w
    else
      var r := plan[run.pos];
      if r.disposition == Skip then w.(runs := w.runs[id := Run(run.pos + 1, false)])
      else if !run.decided then
        if r.key in w.store.ledger then w.(runs := w.runs[id := Run(run.pos + 1, false)])
        else w.(runs := w.runs[id := Run(run.pos, true)])
      else
        match Write(w.store, r)
        case Some(store) => World(store, w.runs[id := Run(run.pos + 1, false)])
        case None => w.(runs := w.runs - {id})
  }

  function Next(plan: seq<Record>, w: World, a: Action): World {
    match a
    case Start(id) => w.(runs := w.runs[id := Run(0, false)])
    case Step(id) => if id in w.runs then Stepped(plan, w, id) else w
    case Crash(id) => w.(runs := w.runs - {id})
  }

  function Exec(plan: seq<Record>, start: Store, actions: seq<Action>): World {
    if actions == [] then World(start, map[])
    else Next(plan, Exec(plan, start, actions[..|actions| - 1]), actions[|actions| - 1])
  }

  // ---------------------------------------------------------------- the one result

  /** What a ledger row says, whatever identifier its target was given. */
  function Says(e: Entry): (nat, Status) {
    (e.hash, e.status)
  }

  /** The ledger after the first `n` records, given the ledger before. */
  ghost function Final(base: map<Key, Entry>, plan: seq<Record>, n: nat): map<Key, (nat, Status)>
    requires n <= |plan|
  {
    if n == 0 then map k | k in base :: Says(base[k])
    else
      var before, r := Final(base, plan, n - 1), plan[n - 1];
      if r.disposition == Skip || r.key in before then before else before[r.key := (r.hash, StatusOf(r))]
  }

  ghost function Ledger(s: Store): map<Key, (nat, Status)> {
    map k | k in s.ledger :: Says(s.ledger[k])
  }

  /** A record of the plan that the ledger did not know at the start. */
  ghost predicate Due(base: map<Key, Entry>, plan: seq<Record>, i: nat) {
    i < |plan| && plan[i].disposition != Skip && plan[i].key !in base
  }

  lemma {:induction false} FinalIsExact(base: map<Key, Entry>, plan: seq<Record>, n: nat)
    requires n <= |plan| && UniqueKeys(plan)
    ensures forall k :: k in base ==> k in Final(base, plan, n) && Final(base, plan, n)[k] == Says(base[k])
    ensures forall i: nat :: i < n && Due(base, plan, i) ==>
      plan[i].key in Final(base, plan, n) && Final(base, plan, n)[plan[i].key] == (plan[i].hash, StatusOf(plan[i]))
    ensures forall k :: k in Final(base, plan, n) ==> k in base || exists i: nat :: i < n && Due(base, plan, i) && plan[i].key == k
  {
    if n > 0 {
      FinalIsExact(base, plan, n - 1);
      hide Says, StatusOf;
      assert forall i: nat :: i < n - 1 ==> plan[i].key != plan[n - 1].key;
      if Due(base, plan, n - 1) {
        assert plan[n - 1].key in Final(base, plan, n);
      }
    }
  }

  // ---------------------------------------------------------------- what every interleaving keeps

  /** The ledger has all it had at the start, unchanged, and otherwise only rows of the plan. */
  ghost predicate Between(base: map<Key, Entry>, plan: seq<Record>, s: Store) {
    && (forall k :: k in base ==> k in s.ledger && s.ledger[k] == base[k])
    && forall k :: k in s.ledger && k !in base ==>
         exists i: nat :: Due(base, plan, i) && plan[i].key == k && Says(s.ledger[k]) == (plan[i].hash, StatusOf(plan[i]))
  }

  /** A run has a ledger row for every record behind it, and looks up before it writes. */
  ghost predicate RunOk(base: map<Key, Entry>, plan: seq<Record>, s: Store, run: Run) {
    && run.pos <= |plan|
    && (forall i :: 0 <= i < run.pos && plan[i].disposition != Skip ==> plan[i].key in s.ledger)
    && (run.decided ==> Due(base, plan, run.pos))
  }

  /** Every imported row has a memory item of its own, and there are no others. */
  ghost predicate StoreOk(s: Store) {
    && TargetsOk(s)
    && (forall id :: id in s.memories ==> id < s.nextId && Owned(s, id))
    && (forall k :: k in s.ledger && s.ledger[k].status == Archived ==>
          s.ledger[k].target == None && (k.system, s.ledger[k].hash) in s.archives)
  }

  predicate IsImported(s: Store, k: Key) {
    k in s.ledger && s.ledger[k].status == Imported
  }

  ghost predicate TargetsOk(s: Store) {
    && (forall k :: IsImported(s, k) ==> s.ledger[k].target.Some? && s.ledger[k].target.value in s.memories)
    && (forall j, k :: IsImported(s, j) && IsImported(s, k) && j != k ==> s.ledger[j].target != s.ledger[k].target)
  }

  ghost predicate Owned(s: Store, id: nat) {
    exists k :: IsImported(s, k) && s.ledger[k].target == Some(id)
  }

  /** The memory item of a record of the plan holds the record's content. */
  ghost predicate ContentsOk(base: map<Key, Entry>, plan: seq<Record>, s: Store) {
    forall i: nat :: Due(base, plan, i) && plan[i].disposition == Import && plan[i].key in s.ledger ==>
      HoldsContent(s, plan[i])
  }

  predicate HoldsContent(s: Store, r: Record) {
    && r.key in s.ledger && s.ledger[r.key].target.Some? && s.ledger[r.key].target.value in s.memories
    && s.memories[s.ledger[r.key].target.value] == r.content
  }

  ghost predicate Inv(base: map<Key, Entry>, plan: seq<Record>, w: World) {
    && Between(base, plan, w.store)
    && StoreOk(w.store)
    && ContentsOk(base, plan, w.store)
    && forall id :: id in w.runs ==> RunOk(base, plan, w.store, w.runs[id])
  }

  lemma WriteKeepsTargets(s: Store, r: Record)
    requires StoreOk(s) && Write(s, r).Some?
    ensures TargetsOk(Write(s, r).value)
  {
    hide Owned;
    var s' := Write(s, r).value;
    forall k | IsImported(s', k) && k != r.key ensures IsImported(s, k) && s'.ledger[k] == s.ledger[k] {
    }
  }

  lemma WriteKeepsOwned(s: Store, r: Record, id: nat)
    requires StoreOk(s) && Write(s, r).Some? && id in Write(s, r).value.memories
    ensures id < Write(s, r).value.nextId && Owned(Write(s, r).value, id)
  {
    hide TargetsOk;
    var s' := Write(s, r).value;
    if id in s.memories {
      var k :| IsImported(s, k) && s.ledger[k].target == Some(id);
      assert IsImported(s', k) && s'.ledger[k] == s.ledger[k];
    } else {
      assert IsImported(s', r.key);
    }
  }

  lemma WriteKeepsStore(s: Store, r: Record)
    requires StoreOk(s) && Write(s, r).Some?
    ensures StoreOk(Write(s, r).value)
  {
    var s' := Write(s, r).value;
    WriteKeepsTargets(s, r);
    forall id | id in s'.memories ensures id < s'.nextId && Owned(s', id) {
      WriteKeepsOwned(s, r, id);
    }
    hide TargetsOk, Owned;
  }

  lemma WriteKeepsContents(base: map<Key, Entry>, plan: seq<Record>, s: Store, i: nat)
    requires UniqueKeys(plan) && StoreOk(s) && ContentsOk(base, plan, s)
    requires Due(base, plan, i) && Write(s, plan[i]).Some?
    ensures ContentsOk(base, plan, Write(s, plan[i]).value)
  {
    hide TargetsOk, Owned;
    var s' := Write(s, plan[i]).value;
    forall j: nat | Due(base, plan, j) && plan[j].disposition == Import && plan[j].key in s'.ledger
      ensures HoldsContent(s', plan[j])
    {
      if j != i {
        assert plan[j].key != plan[i].key;
        assert HoldsContent(s, plan[j]);
      } else if plan[i].key in s.ledger {
        assert HoldsContent(s, plan[j]);
      }
    }
  }

  /** A run that has looked a record up is never refused: only another run of the same plan can
      have written the row meanwhile, and it wrote the same. */
  lemma DecidedIsNotRefused(base: map<Key, Entry>, plan: seq<Record>, s: Store, i: nat)
    requires UniqueKeys(plan) && Between(base, plan, s) && Due(base, plan, i)
    ensures Write(s, plan[i]).Some?
    ensures Between(base, plan, Write(s, plan[i]).value)
    ensures plan[i].key in Write(s, plan[i]).value.ledger
    ensures forall k :: k in s.ledger ==> k in Write(s, plan[i]).value.ledger && Write(s, plan[i]).value.ledger[k] == s.ledger[k]
  {
    var r := plan[i];
    if r.key in s.ledger {
      var j: nat :| Due(base, plan, j) && plan[j].key == r.key && Says(s.ledger[r.key]) == (plan[j].hash, StatusOf(plan[j]));
      assert i == j;
    } else {
      var s' := Write(s, r).value;
      forall k | k in s'.ledger && k !in base
        ensures exists j: nat :: Due(base, plan, j) && plan[j].key == k && Says(s'.ledger[k]) == (plan[j].hash, StatusOf(plan[j]))
      {
        if k == r.key {
          assert Due(base, plan, i) && plan[i].key == k;
        } else {
          assert k in s.ledger;
        }
      }
    }
  }

  lemma LargerLedgerKeepsRun(base: map<Key, Entry>, plan: seq<Record>, s: Store, s': Store, run: Run)
    requires RunOk(base, plan, s, run) && forall k :: k in s.ledger ==> k in s'.ledger
    ensures RunOk(base, plan, s', run)
  {
  }

  lemma WrittenKeeps(base: map<Key, Entry>, plan: seq<Record>, w: World, id: nat)
    requires UniqueKeys(plan) && Inv(base, plan, w) && id in w.runs && w.runs[id].decided
    requires Write(w.store, plan[w.runs[id].pos]).Some?
    ensures Inv(base, plan,
      World(Write(w.store, plan[w.runs[id].pos]).value, w.runs[id := Run(w.runs[id].pos + 1, false)]))
  {
    var pos := w.runs[id].pos;
    var s' := Write(w.store, plan[pos]).value;
    DecidedIsNotRefused(base, plan, w.store, pos);
    WriteKeepsStore(w.store, plan[pos]);
    WriteKeepsContents(base, plan, w.store, pos);
    hide Between, StoreOk, ContentsOk, Due, Write;
    forall x | x in w.runs ensures RunOk(base, plan, s', w.runs[x]) {
      LargerLedgerKeepsRun(base, plan, w.store, s', w.runs[x]);
    }
  }

  lemma SteppedKeeps(base: map<Key, Entry>, plan: seq<Record>, w: World, id: nat)
    requires UniqueKeys(plan) && Inv(base, plan, w) && id in w.runs
    ensures Inv(base, plan, Stepped(plan, w, id))
    ensures id in Stepped(plan, w, id).runs
  {
    hide Between, StoreOk, ContentsOk, Write, UniqueKeys;
    var run := w.runs[id];
    if run.pos < |plan| && plan[run.pos].disposition != Skip && run.decided {
      DecidedIsNotRefused(base, plan, w.store, run.pos);
      WrittenKeeps(base, plan, w, id);
    } else if run.pos < |plan| && plan[run.pos].disposition != Skip && plan[run.pos].key !in w.store.ledger {
      NotInBase(base, plan, w.store, run.pos);
    }
  }

  lemma NotInBase(base: map<Key, Entry>, plan: seq<Record>, s: Store, i: nat)
    requires Between(base, plan, s) && i < |plan| && plan[i].disposition != Skip && plan[i].key !in s.ledger
    ensures Due(base, plan, i)
  {
  }

  lemma NextKeeps(base: map<Key, Entry>, plan: seq<Record>, w: World, a: Action)
    requires UniqueKeys(plan) && Inv(base, plan, w)
    ensures Inv(base, plan, Next(plan, w, a))
  {
    hide Between, StoreOk, ContentsOk;
    match a
    case Start(id) =>
    case Step(id) =>
      if id in w.runs {
        SteppedKeeps(base, plan, w, id);
      }
    case Crash(id) =>
  }

  lemma {:induction false} ExecKeeps(plan: seq<Record>, start: Store, actions: seq<Action>)
    requires UniqueKeys(plan) && StoreOk(start)
    ensures Inv(start.ledger, plan, Exec(plan, start, actions))
  {
    if actions != [] {
      ExecKeeps(plan, start, actions[..|actions| - 1]);
      hide Inv, Next;
      NextKeeps(start.ledger, plan, Exec(plan, start, actions[..|actions| - 1]), actions[|actions| - 1]);
    }
  }

  // ---------------------------------------------------------------- replay

  /** Crashes, restarts and other runs make no difference: whenever some run has come to the end
      of the plan, the ledger is the one result, with one memory item for each imported row. */
  lemma ReplayIsSafe(plan: seq<Record>, start: Store, actions: seq<Action>, id: nat)
    requires UniqueKeys(plan) && StoreOk(start)
    requires var w := Exec(plan, start, actions); id in w.runs && w.runs[id].pos == |plan|
    ensures var s := Exec(plan, start, actions).store;
      && Ledger(s) == Final(start.ledger, plan, |plan|)
      && StoreOk(s)
      && forall i: nat :: Due(start.ledger, plan, i) && plan[i].disposition == Import ==> HoldsContent(s, plan[i])
  {
    var base, w := start.ledger, Exec(plan, start, actions);
    ExecKeeps(plan, start, actions);
    hide Exec, StoreOk, Between, RunOk, Final, Ledger, HoldsContent;
    FinishedIsFinal(base, plan, w.store, w.runs[id]);
    FinishedHasAll(base, plan, w.store, w.runs[id]);
  }

  /** A run at the end has put every due record into the ledger. */
  lemma FinishedHasAll(base: map<Key, Entry>, plan: seq<Record>, s: Store, run: Run)
    requires RunOk(base, plan, s, run) && run.pos == |plan|
    ensures forall i: nat :: Due(base, plan, i) ==> plan[i].key in s.ledger
  {
  }

  lemma FinishedIsFinal(base: map<Key, Entry>, plan: seq<Record>, s: Store, run: Run)
    requires UniqueKeys(plan) && Between(base, plan, s) && RunOk(base, plan, s, run) && run.pos == |plan|
    ensures Ledger(s) == Final(base, plan, |plan|)
  {
    FinalIsExact(base, plan, |plan|);
    FinishedHasAll(base, plan, s, run);
    hide StatusOf, RunOk, Final, Says;
    forall k ensures k in s.ledger <==> k in Final(base, plan, |plan|) {
      if k in Final(base, plan, |plan|) && k !in base {
        var i: nat :| i < |plan| && Due(base, plan, i) && plan[i].key == k;
        assert plan[i].key in s.ledger;
      }
    }
  }

  /** No run of the plan, in any interleaving, is ever refused a write. */
  lemma NoWriteConflict(plan: seq<Record>, start: Store, actions: seq<Action>, id: nat)
    requires UniqueKeys(plan) && StoreOk(start) && id in Exec(plan, start, actions).runs
    ensures id in Exec(plan, start, actions + [Step(id)]).runs
  {
    ExecKeeps(plan, start, actions);
    assert (actions + [Step(id)])[..|actions|] == actions;
    hide Inv;
    SteppedKeeps(start.ledger, plan, Exec(plan, start, actions), id);
  }

  /** The number of memory items is the number of imported rows. */
  lemma OneMemoryPerImport(s: Store)
    requires StoreOk(s)
    ensures |s.memories| == |set k | k in s.ledger && IsImported(s, k)|
  {
    var rows := set k | k in s.ledger && IsImported(s, k);
    var targets := set k | k in rows :: s.ledger[k].target.value;
    forall id | id in s.memories ensures id in targets {
      var k :| IsImported(s, k) && s.ledger[k].target == Some(id);
      assert k in rows;
    }
    assert s.memories.Keys == targets;
    SameSize(s.ledger, rows);
  }

  lemma {:induction false} SameSize(ledger: map<Key, Entry>, rows: set<Key>)
    requires forall k :: k in rows ==> k in ledger && ledger[k].target.Some?
    requires forall j, k :: j in rows && k in rows && j != k ==> ledger[j].target != ledger[k].target
    ensures |set k | k in rows :: ledger[k].target.value| == |rows|
    decreases |rows|
  {
    var targets := set k | k in rows :: ledger[k].target.value;
    if rows == {} {
      assert targets == {};
    } else {
      var r :| r in rows;
      var fewer := rows - {r};
      SameSize(ledger, fewer);
      var others := set k | k in fewer :: ledger[k].target.value;
      assert targets == others + {ledger[r].target.value};
    }
  }
}
