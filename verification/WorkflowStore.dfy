/** The stored rows of one run and the units of work that mutate them.

    Each public method is one transaction: it refines the transition of the same name on
    values and keeps the invariant. A completion hook that raises is rolled back. */
module WorkflowStore {
  import opened Wrappers
  import opened WorkflowModel
  import opened WorkflowInvariant
  import opened WorkflowGraph
  import opened WorkflowPreservation
  import opened WorkflowSafety
  import opened WorkflowTransitions

  /** A row with its freshly computed status in front of the stored rows. */
  function Current(s: Run, k: StepKey, st: Step): Run {
    s.(steps := s.steps[k := st])
  }

  lemma AddBeside(s: Run, k: StepKey, st: Step, added: StepKey, input: Artifact)
    requires k in s.steps
    ensures Current(AddStep(s, added, input), k, st) == AddStep(Current(s, k, st), added, input)
  {
    if added !in s.steps {
      var row := Step(Ready, input, None, None, s.clock, []);
      assert s.steps[added := row][k := st] == s.steps[k := st][added := row];
    }
  }

  /** How a unit of work reports back to the executor; `Raised` means it was rolled back. */
  datatype Disposition = Claimed | Ignored | Stale | Finished | Retrying | Ended | Dropped | Raised

  /** A reconciler's snapshot of a step. */
  datatype Snapshot = Snapshot(key: StepKey, status: StepStatus, retryAt: Option<Time>, leasedUntil: Option<Time>)

  datatype Recovery = DispatchReady | ReleaseRetry | ReleaseExpiredLease

  /** What the reconciler decides from a snapshot alone. */
  function Decide(item: Snapshot, now: Time): Option<Recovery> {
    if item.status == Ready then Some(DispatchReady)
    else if item.status == RetryWait && item.retryAt.Some? && item.retryAt.value <= now then Some(ReleaseRetry)
    else if item.status == Running && item.leasedUntil.Some? && item.leasedUntil.value <= now then Some(ReleaseExpiredLease)
    else None
  }

  /** The snapshot says that the step's retry time has come or that its lease has expired. */
  predicate Lapsed(item: Snapshot, now: Time) {
    || (item.status == RetryWait && item.retryAt.Some? && item.retryAt.value <= now)
    || (item.status == Running && item.leasedUntil.Some? && item.leasedUntil.value <= now)
  }

  /** Is the item handed to the broker, `s` being the rows when it is looked at? What the snapshot
      calls READY is; what it calls lapsed is if its row is READY by then, or has lapsed itself. */
  predicate HandedOver(item: Snapshot, s: Run, now: Time) {
    item.status == Ready ||
    (Lapsed(item, now) && item.key in s.steps &&
     (s.steps[item.key].status == Ready || Recovers(s, item.key, item.status, now)))
  }

  lemma DecisionIs(item: Snapshot, now: Time)
    ensures Decide(item, now) == Some(DispatchReady) <==> item.status == Ready
    ensures Decide(item, now).Some? <==> item.status == Ready || Lapsed(item, now)
  {
  }

  /** After the attempt to recover a lapsed item its row is READY exactly if the item is handed over. */
  lemma ReadyIsHandedOver(c: Config, s: Run, item: Snapshot, now: Time)
    requires Locals(s) && now <= s.clock && Lapsed(item, now)
    ensures var t := WorkflowModel.MakeReady(s, item.key, item.status, now);
      (item.key in t.steps && t.steps[item.key].status == Ready) <==> HandedOver(item, s, now)
  {
    hide Locals, WorkflowModel.MakeReady, NewestEnded;
    RecoveryIs(c, s, DoMakeReady(item.key, item.status, s.clock - now));
  }

  /** How many items were recovered, what was handed to the broker, and how often that or its
      bookkeeping failed. */
  datatype Cycle = Cycle(recovered: nat, delivered: seq<StepKey>, failed: nat)

  function CycleOf(items: seq<Snapshot>, seen: seq<Run>, now: Time, broker: seq<bool>, marked: seq<bool>): Cycle
    requires |items| == |seen| == |broker| == |marked|
  {
    if items == [] then Cycle(0, [], 0)
    else
      var n := |items| - 1;
      var rest := CycleOf(items[..n], seen[..n], now, broker[..n], marked[..n]);
      if !HandedOver(items[n], seen[n], now) then rest
      else Cycle(
        rest.recovered + (if items[n].status == Ready then 0 else 1),
        rest.delivered + (if broker[n] then [items[n].key] else []),
        rest.failed + (if broker[n] && marked[n] then 0 else 1))
  }

  lemma CycleMore(items: seq<Snapshot>, seen: seq<Run>, now: Time, broker: seq<bool>, marked: seq<bool>, n: nat)
    requires n < |items| == |broker| == |marked| && |seen| == n + 1
    ensures var rest := CycleOf(items[..n], seen[..n], now, broker[..n], marked[..n]);
      CycleOf(items[..n + 1], seen, now, broker[..n + 1], marked[..n + 1]) ==
      if !HandedOver(items[n], seen[n], now) then rest
      else Cycle(
        rest.recovered + (if items[n].status == Ready then 0 else 1),
        rest.delivered + (if broker[n] then [items[n].key] else []),
        rest.failed + (if broker[n] && marked[n] then 0 else 1))
  {
    hide HandedOver;
    assert items[..n + 1][..n] == items[..n] && broker[..n + 1][..n] == broker[..n] && marked[..n + 1][..n] == marked[..n];
  }

  /** `s` is the run just before the trace tries to recover the item. */
  predicate LookedAt(c: Config, start: Run, trace: seq<Action>, item: Snapshot, s: Run, now: Time) {
    exists j :: 0 <= j < |trace| && s == Exec(c, start, trace[..j]) && now <= s.clock
                && trace[j] == DoMakeReady(item.key, item.status, s.clock - now)
  }

  predicate BookedDelivery(trace: seq<Action>, k: StepKey) {
    exists j :: 0 <= j < |trace| && trace[j].DoMarkDispatched? && trace[j].key == k
  }

  /** Every lapsed item was tried on the rows it was looked at with, and every delivery that could be
      booked was. */
  predicate Accounted(
      c: Config, start: Run, trace: seq<Action>, items: seq<Snapshot>, seen: seq<Run>, now: Time,
      broker: seq<bool>, marked: seq<bool>)
    requires |seen| <= |items| == |broker| == |marked|
  {
    forall i :: 0 <= i < |seen| ==>
      && (Lapsed(items[i], now) ==> LookedAt(c, start, trace, items[i], seen[i], now))
      && (HandedOver(items[i], seen[i], now) && broker[i] && marked[i] ==> BookedDelivery(trace, items[i].key))
  }

  lemma LookedAtMore(c: Config, start: Run, trace: seq<Action>, more: seq<Action>, item: Snapshot, s: Run, now: Time)
    requires LookedAt(c, start, trace, item, s, now)
    ensures LookedAt(c, start, trace + more, item, s, now)
  {
    hide Exec;
    var j :| 0 <= j < |trace| && s == Exec(c, start, trace[..j]) && now <= s.clock
             && trace[j] == DoMakeReady(item.key, item.status, s.clock - now);
    assert (trace + more)[..j] == trace[..j] && (trace + more)[j] == trace[j];
  }

  lemma BookedMore(trace: seq<Action>, more: seq<Action>, k: StepKey)
    requires BookedDelivery(trace, k)
    ensures BookedDelivery(trace + more, k)
  {
    var j :| 0 <= j < |trace| && trace[j].DoMarkDispatched? && trace[j].key == k;
    assert (trace + more)[j] == trace[j];
  }

  lemma AccountedMore(
      c: Config, start: Run, trace: seq<Action>, more: seq<Action>, items: seq<Snapshot>, seen: seq<Run>, now: Time,
      broker: seq<bool>, marked: seq<bool>)
    requires |seen| <= |items| == |broker| == |marked| && Accounted(c, start, trace, items, seen, now, broker, marked)
    ensures Accounted(c, start, trace + more, items, seen, now, broker, marked)
  {
    hide LookedAt, BookedDelivery, HandedOver, Lapsed;
    forall i | 0 <= i < |seen|
      ensures Lapsed(items[i], now) ==> LookedAt(c, start, trace + more, items[i], seen[i], now)
      ensures HandedOver(items[i], seen[i], now) && broker[i] && marked[i] ==> BookedDelivery(trace + more, items[i].key)
    {
      if Lapsed(items[i], now) {
        LookedAtMore(c, start, trace, more, items[i], seen[i], now);
      }
      if HandedOver(items[i], seen[i], now) && broker[i] && marked[i] {
        BookedMore(trace, more, items[i].key);
      }
    }
  }

  lemma AccountedNext(
      c: Config, start: Run, trace: seq<Action>, items: seq<Snapshot>, seen: seq<Run>, s: Run, now: Time,
      broker: seq<bool>, marked: seq<bool>)
    requires |seen| < |items| == |broker| == |marked| && Accounted(c, start, trace, items, seen, now, broker, marked)
    requires var i := |seen|;
      && (Lapsed(items[i], now) ==> LookedAt(c, start, trace, items[i], s, now))
      && (HandedOver(items[i], s, now) && broker[i] && marked[i] ==> BookedDelivery(trace, items[i].key))
    ensures Accounted(c, start, trace, items, seen + [s], now, broker, marked)
  {
    hide LookedAt, BookedDelivery, HandedOver, Lapsed;
  }

  predicate AmongOthers(a: Action, others: seq<seq<Action>>) {
    exists i :: 0 <= i < |others| && a in others[i]
  }

  /** The worker still owns the step, and its attempt's deadline has not passed. */
  predicate InTime(s: Run, k: StepKey, no: nat, owner: Worker, now: Time) {
    && Accepts(s, k, no, owner)
    && exists i :: 0 <= i < |s.steps[k].attempts| && s.steps[k].attempts[i].no == no && now < s.steps[k].attempts[i].deadline
  }

  lemma InTimeIs(s: Run, k: StepKey, no: nat, owner: Worker, now: Time)
    requires Locals(s) && Accepts(s, k, no, owner)
    ensures AttemptNo(s.steps[k].attempts, no).Some?
    ensures InTime(s, k, no, owner, now) <==> now < AttemptNo(s.steps[k].attempts, no).value.deadline
  {
    AcceptedIsNewest(s, k, no, owner);
    assert StepOk(k, s.steps[k], s.hard);
    hide Locals, IsCurrent;
    if InTime(s, k, no, owner, now) {
      var i :| 0 <= i < |s.steps[k].attempts| && s.steps[k].attempts[i].no == no && now < s.steps[k].attempts[i].deadline;
      assert i == no - 1;
    }
  }

  class RunStore {
    const config: Config
    const mode: Mode
    const soft: Time
    const hard: Time
    const reserve: Time
    var status: RunStatus
    var steps: StepMap
    var order: seq<StepKey>
    var unpublished: set<StepKey>
    var usage: Usage
    var events: seq<Event>
    var outcome: Option<(Quality, StopReason)>
    var clock: Time

    function View(): Run
      reads this
    {
      Run(status, mode, soft, hard, reserve, steps, order, unpublished, usage, events, outcome, clock)
    }

    ghost predicate Valid()
      reads this
    {
      Inv(config, View())
    }

    constructor (config: Config, m: Submission)
      requires m.Valid()
      ensures Valid()
      ensures this.config == config
      ensures View() == Submitted(m)
    {
      var s := Submitted(m);
      this.config := config;
      mode, soft, hard, reserve := s.mode, s.soft, s.hard, s.reserve;
      status, steps, order, unpublished := s.status, s.steps, s.order, s.unpublished;
      usage, events, outcome, clock := s.usage, s.events, s.outcome, s.clock;
      new;
      hide Inv, Submitted;
      SubmittedOk(config, m);
    }

    method Restore(s: Run)
      requires s.mode == mode && s.soft == soft && s.hard == hard && s.reserve == reserve
      modifies this
      ensures View() == s
    {
      status, steps, order, unpublished := s.status, s.steps, s.order, s.unpublished;
      usage, events, outcome, clock := s.usage, s.events, s.outcome, s.clock;
    }

    method Save(k: StepKey, st: Step)
      modifies this`steps
      ensures View() == Put(old(View()), k, st)
    {
      steps := steps[k := st.(updatedAt := clock)];
    }

    method AddEvent(kind: EventKind, k: StepKey, no: nat)
      modifies this`events
      ensures View() == Log(old(View()), kind, k, no)
    {
      events := events + [Event(kind, k, no)];
    }

    // -------------------------------------------------------------- successor scheduling

    method Add(k: StepKey, input: Artifact) returns (added: bool)
      modifies this`steps, this`order, this`unpublished
      ensures View() == AddStep(old(View()), k, input)
      ensures added <==> k !in old(steps)
    {
      if k in steps {
        return false;
      }
      steps := steps[k := Step(Ready, input, None, None, clock, [])];
      order := order + [k];
      unpublished := unpublished + {k};
      return true;
    }

    /** The status of a row, read through the step being completed. */
    function StatusOf(row: StepKey, k: StepKey, current: Step): StepStatus
      requires row in steps
      reads this
    {
      if row == k then current.status else steps[row].status
    }

    method PlanReference(k: StepKey, current: Step) returns (plan: Option<Artifact>)
      requires k in steps
      ensures plan == PlanRef(Current(View(), k, current))
    {
      if k == Plan {
        plan := if current.status == Succeeded then current.output else None;
      } else if Plan in steps && steps[Plan].status == Succeeded {
        plan := steps[Plan].output;
      } else {
        plan := None;
      }
    }

    /** Is there a discovery row, and have all of them ended? */
    method ScanDiscoveries(k: StepKey, current: Step) returns (any: bool, done: bool)
      requires Rows(View()) && k in steps
      ensures any <==> HasDiscover(Current(View(), k, current).steps)
      ensures done <==> DiscoverDone(Current(View(), k, current).steps)
    {
      ghost var m := Current(View(), k, current).steps;
      any, done := false, true;
      for i := 0 to |order|
        invariant any <==> exists j :: 0 <= j < i && order[j].Discover?
        invariant done <==> forall j :: 0 <= j < i && order[j].Discover? ==> Terminal(m[order[j]].status)
      {
        var row := order[i];
        assert row in order;
        if row.Discover? {
          any := true;
          done := done && Terminal(StatusOf(row, k, current));
        }
      }
      assert any <==> HasDiscover(m) by {
        if HasDiscover(m) {
          var q :| q in m && q.Discover?;
          assert q in order;
        }
      }
      assert done <==> DiscoverDone(m) by {
        if done {
          forall q | q in m && q.Discover? ensures Terminal(m[q].status) {
            assert q in order;
          }
        }
      }
    }

    /** The outputs of the successful discoveries, in row order. */
    method DiscoveryReferences(k: StepKey, current: Step) returns (references: seq<Artifact>)
      requires (forall row :: row in order ==> row in steps) && k in steps
      ensures references == DiscoveryRefs(Current(View(), k, current).steps, order)
    {
      ghost var m := Current(View(), k, current).steps;
      references := [];
      for i := 0 to |order|
        invariant references == DiscoveryRefs(m, order[..i])
      {
        var row := order[i];
        assert row in order && order[..i + 1][..i] == order[..i];
        if row.Discover? {
          var output := if row == k then current.output else steps[row].output;
          if StatusOf(row, k, current) == Succeeded && output.Some? {
            references := references + [output.value];
          }
        }
      }
      assert order[..|order|] == order;
    }

    method SelectJoin(k: StepKey, current: Step) returns (raised: bool)
      requires Rows(View()) && k in steps && k.Discover?
      modifies this`steps, this`order, this`unpublished
      ensures raised <==> MaybeSelect(old(Current(View(), k, current))).None?
      ensures !raised ==> Some(Current(View(), k, current)) == MaybeSelect(old(Current(View(), k, current)))
      ensures k in steps
    {
      hide HasDiscover, DiscoverDone, DiscoveryRefs;
      var any, done := ScanDiscoveries(k, current);
      if !any || !done {
        return false;
      }
      var references := DiscoveryReferences(k, current);
      var plan := PlanReference(k, current);
      if plan.None? {
        return true;
      }
      AddBeside(View(), k, current, Select, SelectionInput(plan.value, references));
      var _ := Add(Select, SelectionInput(plan.value, references));
      return false;
    }

    /** Have all steps but synthesize ended? */
    method PipelineDone(k: StepKey, current: Step) returns (done: bool)
      requires Rows(View()) && k in steps && k != Synthesize
      ensures done <==> OthersDone(Current(View(), k, current).steps)
    {
      ghost var m := Current(View(), k, current).steps;
      done := true;
      for i := 0 to |order|
        invariant done <==> forall j :: 0 <= j < i && order[j] != Synthesize ==> Terminal(m[order[j]].status)
      {
        var row := order[i];
        assert row in order;
        if row != Synthesize {
          done := done && Terminal(StatusOf(row, k, current));
        }
      }
      assert done <==> OthersDone(m) by {
        if done {
          forall q | q in m && q != Synthesize ensures Terminal(m[q].status) {
            assert q in order;
          }
        }
      }
    }

    /** The codes left behind by failed and cancelled steps. */
    method EndedCodes(k: StepKey, current: Step) returns (codes: set<Code>)
      requires (forall row :: row in order ==> row in steps) && k in steps
      ensures codes == PipelineCodes(Current(View(), k, current).steps, order)
    {
      ghost var m := Current(View(), k, current).steps;
      codes := {};
      for i := 0 to |order|
        invariant codes == PipelineCodes(m, order[..i])
      {
        var row := order[i];
        assert row in order && order[..i + 1][..i] == order[..i];
        if row != Synthesize {
          var st := StatusOf(row, k, current);
          if st == Failed {
            codes := codes + {StepEnded(Kind(row), false)};
          } else if st == Cancelled {
            codes := codes + {StepEnded(Kind(row), true)};
          }
        }
      }
      assert order[..|order|] == order;
    }

    method VerificationReference(k: StepKey, current: Step) returns (verification: Option<Artifact>)
      requires k in steps
      ensures verification == VerifyRef(Current(View(), k, current).steps)
    {
      if k == Verify {
        verification := if current.status == Succeeded then current.output else None;
      } else if Verify in steps && steps[Verify].status == Succeeded {
        verification := steps[Verify].output;
      } else {
        verification := None;
      }
    }

    method FailureCount(k: StepKey, current: Step) returns (failures: nat)
      requires k in steps
      ensures failures == ProviderFailures(Current(View(), k, current).steps)
    {
      var selection := if k == Select then current.output else if Select in steps then steps[Select].output else None;
      failures := if selection.Some? && selection.value.Selection? then selection.value.providerFailures else 0;
    }

    method SynthesizeJoin(k: StepKey, current: Step, degradation: set<Code>) returns (raised: bool)
      requires Rows(View()) && k in steps && k != Synthesize
      modifies this`steps, this`order, this`unpublished
      ensures raised <==> MaybeSynthesize(old(Current(View(), k, current)), degradation).None?
      ensures !raised ==> Some(Current(View(), k, current)) == MaybeSynthesize(old(Current(View(), k, current)), degradation)
      ensures k in steps
    {
      hide OthersDone, PipelineCodes;
      ghost var s := Current(View(), k, current);
      var done := PipelineDone(k, current);
      if !done {
        return false;
      }
      var plan := PlanReference(k, current);
      if plan.None? {
        return true;
      }
      var codes := EndedCodes(k, current);
      var verification := VerificationReference(k, current);
      var failures := FailureCount(k, current);
      hide PlanRef, VerifyRef, ProviderFailures;
      var input := SynthesisInput(plan.value, verification, failures, degradation + codes);
      AddBeside(View(), k, current, Synthesize, input);
      var _ := Add(Synthesize, input);
      return false;
    }

    /** Have all fetches and extracts ended? */
    method ContentDone(k: StepKey, current: Step) returns (done: bool)
      requires Rows(View()) && k in steps
      ensures done <==> FetchExtractDone(Current(View(), k, current).steps)
    {
      ghost var m := Current(View(), k, current).steps;
      done := true;
      for i := 0 to |order|
        invariant done <==> forall j :: 0 <= j < i && FetchOrExtract(order[j]) ==> Terminal(m[order[j]].status)
      {
        var row := order[i];
        assert row in order;
        if FetchOrExtract(row) {
          done := done && Terminal(StatusOf(row, k, current));
        }
      }
      assert done <==> FetchExtractDone(m) by {
        if done {
          forall q | q in m && FetchOrExtract(q) ensures Terminal(m[q].status) {
            assert q in order;
          }
        }
      }
    }

    /** What the successful extracts other than the current step left, in row order. */
    method OtherReferences(k: StepKey, current: Step) returns (refs: seq<Artifact>)
      requires (forall row :: row in order ==> row in steps) && k in steps
      ensures refs == OtherExtracts(Current(View(), k, current).steps, order, k)
    {
      ghost var m := Current(View(), k, current).steps;
      refs := [];
      for i := 0 to |order|
        invariant refs == OtherExtracts(m, order[..i], k)
      {
        var row := order[i];
        assert row in order && order[..i + 1][..i] == order[..i];
        if row.Extract? && row != k && steps[row].status == Succeeded && steps[row].output.Some? {
          refs := refs + [steps[row].output.value];
        }
      }
      assert order[..|order|] == order;
    }

    method VerifyJoin(k: StepKey, current: Step, degradation: set<Code>) returns (raised: bool)
      requires Rows(View()) && k in steps && FetchOrExtract(k)
      modifies this`steps, this`order, this`unpublished
      ensures raised <==> MaybeVerify(old(Current(View(), k, current)), k, degradation).None?
      ensures !raised ==> Some(Current(View(), k, current)) == MaybeVerify(old(Current(View(), k, current)), k, degradation)
      ensures k in steps
    {
      hide FetchExtractDone, OtherExtracts, MaybeSynthesize;
      ghost var s := Current(View(), k, current);
      var done := ContentDone(k, current);
      var refs := OtherReferences(k, current);
      if k.Extract? && current.status == Succeeded && current.output.Some? && current.output.value !in refs {
        refs := refs + [current.output.value];
      }
      assert refs == ExtractRefs(s, k);
      if Verify in steps {
        if done && Terminal(steps[Verify].status) {
          raised := SynthesizeJoin(k, current, degradation);
        } else {
          raised := false;
        }
        return;
      }
      if refs == [] {
        if done {
          raised := SynthesizeJoin(k, current, degradation);
        } else {
          raised := false;
        }
        return;
      }
      var plan := PlanReference(k, current);
      if plan.None? {
        return true;
      }
      if !done && !EarlyVerify(View(), plan.value, refs) {
        return false;
      }
      AddBeside(View(), k, current, Verify, VerifyInput(plan.value, refs));
      var _ := Add(Verify, VerifyInput(plan.value, refs));
      return false;
    }

    method ScheduleDiscoveries(k: StepKey, current: Step, plan: Artifact, queries: seq<nat>)
      requires k in steps
      modifies this`steps, this`order, this`unpublished
      ensures Current(View(), k, current) == AddDiscoveries(old(Current(View(), k, current)), plan, queries)
      ensures k in steps
    {
      for i := 0 to |queries|
        invariant k in steps
        invariant AddDiscoveries(Current(View(), k, current), plan, queries[i..])
               == AddDiscoveries(old(Current(View(), k, current)), plan, queries)
      {
        assert queries[i..][0] == queries[i] && queries[i..][1..] == queries[i + 1..];
        AddBeside(View(), k, current, Discover(queries[i]), DiscoveryInput(plan, queries[i]));
        var _ := Add(Discover(queries[i]), DiscoveryInput(plan, queries[i]));
      }
    }

    method ScheduleFetches(k: StepKey, current: Step, selected: seq<Hit>)
      requires k in steps
      modifies this`steps, this`order, this`unpublished
      ensures Current(View(), k, current) == AddFetches(old(Current(View(), k, current)), selected, 1)
      ensures k in steps
    {
      for i := 0 to |selected|
        invariant k in steps
        invariant AddFetches(Current(View(), k, current), selected[i..], i + 1)
               == AddFetches(old(Current(View(), k, current)), selected, 1)
      {
        var hit := selected[i];
        assert selected[i..][0] == hit && selected[i..][1..] == selected[i + 1..];
        AddBeside(View(), k, current, Fetch(i + 1, hit.id), FetchInput(hit));
        var _ := Add(Fetch(i + 1, hit.id), FetchInput(hit));
      }
    }

    /** The completion hook on success. */
    method HookSuccess(k: StepKey, current: Step, out: Artifact) returns (raised: bool)
      requires Rows(View()) && k in steps
      modifies this`steps, this`order, this`unpublished, this`status, this`outcome
      ensures raised <==> OnSuccess(old(Current(View(), k, current)), k, out).None?
      ensures !raised ==> Some(Current(View(), k, current)) == OnSuccess(old(Current(View(), k, current)), k, out)
      ensures k in steps
    {
      hide Rows, MaybeSelect, MaybeVerify, MaybeSynthesize, AddDiscoveries, AddFetches;
      if !Fits(k, out) {
        return true;
      }
      match k {
        case Route =>
          AddBeside(View(), k, current, Plan, out);
          var _ := Add(Plan, out);
          return false;
        case Plan =>
          if out.queries == [] {
            raised := SynthesizeJoin(k, current, {});
          } else {
            ScheduleDiscoveries(k, current, out, out.queries);
            return false;
          }
        case Discover(_) =>
          raised := SelectJoin(k, current);
        case Select =>
          if out.selected == [] {
            raised := SynthesizeJoin(k, current, {});
          } else {
            ScheduleFetches(k, current, out.selected);
            return false;
          }
        case Fetch(i, h) =>
          AddBeside(View(), k, current, Extract(i, h), out);
          var _ := Add(Extract(i, h), out);
          return false;
        case Extract(_, _) =>
          raised := VerifyJoin(k, current, {});
        case Verify =>
          raised := SynthesizeJoin(k, current, {});
        case Synthesize =>
          if status != RunRunning || !ConsistentAnswer(out.quality, out.reason) {
            return true;
          }
          status, outcome := RunSucceeded, Some((out.quality, out.reason));
          return false;
      }
    }

    /** The completion hook on failure. */
    method HookFailure(k: StepKey, current: Step, code: nat) returns (raised: bool)
      requires Rows(View()) && k in steps
      modifies this`steps, this`order, this`unpublished, this`status
      ensures raised <==> OnFailure(old(Current(View(), k, current)), k, code).None?
      ensures !raised ==> Some(Current(View(), k, current)) == OnFailure(old(Current(View(), k, current)), k, code)
      ensures k in steps
    {
      hide Rows, MaybeSelect, MaybeVerify, MaybeSynthesize;
      if RunTerminal(status) {
        return false;
      }
      if k.Route? || k.Plan? || k.Synthesize? {
        status := RunFailed;
        return false;
      }
      if k.Discover? {
        raised := SelectJoin(k, current);
      } else if FetchOrExtract(k) {
        raised := VerifyJoin(k, current, {Reported(code)});
      } else {
        raised := SynthesizeJoin(k, current, {Reported(code)});
      }
    }

    // -------------------------------------------------------------- units of work

    /** The phase deadline passed before the step was admitted: it fails without an attempt. */
    method MissPhase(k: StepKey, now: Time)
      requires Valid() && k in steps && steps[k].status == Ready && !RunTerminal(status)
      requires now <= clock && PhaseDeadline(View(), k) <= now < hard
      modifies this
      ensures View() == Next(config, old(View()), DoClaim(k, 0, old(clock) - now))
      ensures k in steps && steps[k].status == Failed
    {
      hide Inv, Rows, OnFailure;
      InvRows(config, View());
      MissedPhaseNeverRaises(config, View(), k);
      RowsIgnoreStatus(View());
      if status == RunQueued || status == RunWaiting {
        status := RunRunning;
      }
      var ended := steps[k].(status := Failed, retryAt := None, updatedAt := clock);
      var raised := HookFailure(k, ended, PhaseDeadlineExceeded);
      Save(k, ended);
      AddEvent(StepPhaseDeadline, k, 0);
    }

    /** The step runs: a new attempt, leased until its deadline at most. */
    method Admit(k: StepKey, worker: Worker, now: Time)
      requires k in steps
      modifies this`status, this`steps, this`events
      ensures View() == ClaimLease(config, old(View()), k, worker, now)
      ensures k in steps && steps[k].status == Running
    {
      var step, deadline := steps[k], PhaseDeadline(View(), k);
      if status == RunQueued || status == RunWaiting {
        status := RunRunning;
      }
      var no := MaxNo(step.attempts) + 1;
      var attempt := Attempt(no, worker, Min(deadline, now + config.leaseSeconds), deadline, now, Open);
      Save(k, step.(status := Running, retryAt := None, attempts := step.attempts + [attempt]));
      AddEvent(StepStarted, k, no);
    }

    /** `now` was read before the row locks were taken. */
    method Claim(k: StepKey, worker: Worker, now: Time) returns (d: Disposition)
      requires Valid() && now <= clock
      modifies this
      ensures Valid()
      ensures View() == Next(config, old(View()), DoClaim(k, worker, old(clock) - now))
      ensures d == Claimed <==> k in old(steps) && old(steps[k].status) == Ready && k in steps && steps[k].status == Running
      ensures (d.Claimed? || d.Ignored? || d.Ended? || d.Dropped?)
    {
      hide Inv, Rows, OnFailure, MaxNo, PhaseDeadline;
      InvRows(config, View());
      NextKeeps(config, View(), DoClaim(k, worker, clock - now));
      if k !in steps || steps[k].status != Ready {
        return Ignored;
      }
      var step := steps[k];
      if RunTerminal(status) {
        Save(k, step.(status := Cancelled));
        return Dropped;
      }
      if now >= hard {
        status := RunFailed;
        Save(k, step.(status := Failed, retryAt := None));
        AddEvent(StepDeadline, k, 0);
        return Ended;
      }
      var deadline := PhaseDeadline(View(), k);
      if now >= deadline {
        MissPhase(k, now);
        return Ended;
      }
      Admit(k, worker, now);
      return Claimed;
    }

    /** Does the report come from the attempt that still owns the running step? */
    method IsCurrentAttempt(k: StepKey, no: nat, owner: Worker) returns (current: bool)
      requires k in steps
      ensures current <==> IsCurrent(steps[k].attempts, no, owner)
    {
      var a := steps[k].attempts;
      var found := false;
      for i := 0 to |a|
        invariant found <==> exists j :: 0 <= j < i && a[j].no == no && a[j].owner == owner && a[j].end.Open?
      {
        if a[i].no == no && a[i].owner == owner && a[i].end.Open? {
          found := true;
        }
      }
      current := 1 <= no && found && MaxNo(a) == no;
    }

    method Succeed(k: StepKey, no: nat, owner: Worker, out: Artifact, cost: Charge, now: Time) returns (d: Disposition)
      requires Valid() && now <= clock
      modifies this
      ensures Valid()
      ensures View() == Next(config, old(View()), DoSucceed(k, no, owner, out, cost, old(clock) - now))
      ensures d == Stale <==> !Accepts(old(View()), k, no, owner)
      ensures d == Finished ==> Succ(steps, k) && steps[k].output == Some(out)
      ensures d == Raised ==>
                View() == old(View()) && (!Fits(k, out) || (k == Synthesize && !ConsistentAnswer(out.quality, out.reason)))
    {
      hide Graph, Live, Accounts, History, Locals, RunOk, OnSuccess, IsCurrent, EndAttempt, Rows, Inv, Charged, Elapsed, AddUsage, MaxNo;
      NextKeeps(config, View(), DoSucceed(k, no, owner, out, cost, clock - now));
      ghost var s := View();
      if k !in steps || steps[k].status != Running {
        return Stale;
      }
      var current := IsCurrentAttempt(k, no, owner);
      if !current {
        return Stale;
      }
      var step := steps[k];
      if RunTerminal(status) {
        Save(k, step.(status := Cancelled, attempts := EndAttempt(step.attempts, no, Errored(now))));
        AddEvent(StepCancelled, k, no);
        return Dropped;
      }
      var saved := View();
      var full := Charged(cost, Elapsed(View(), k, no, now));
      var done := step.(status := Succeeded, output := Some(out), updatedAt := clock,
                        attempts := EndAttempt(step.attempts, no, Done(out, full)));
      usage := AddUsage(usage, full);
      InvRows(config, saved);
      assert Current(View(), k, done) == Finish(s, k, no, out, cost, now);
      RowsIgnoreUsage(saved, View());
      var raised := HookSuccess(k, done, out);
      if raised {
        SuccessRarelyRaises(config, s, k, no, owner, out, cost, now);
        Restore(saved);
        return Raised;
      }
      SuccessKeepsRow(Finish(s, k, no, out, cost, now), k, out);
      Save(k, done);
      AddEvent(StepSucceeded, k, no);
      return Finished;
    }

    method Fail(k: StepKey, no: nat, owner: Worker, error: StepError, now: Time) returns (d: Disposition)
      requires Valid() && now <= clock
      modifies this
      ensures Valid()
      ensures View() == Next(config, old(View()), DoFail(k, no, owner, error, old(clock) - now))
      ensures d == Stale <==> !Accepts(old(View()), k, no, owner)
      ensures d == Retrying ==> k in steps && steps[k].status == RetryWait && no < AttemptLimit(config, k)
      ensures (d.Stale? || d.Retrying? || d.Ended? || d.Dropped?)
    {
      hide Graph, Live, Accounts, History, Locals, RunOk, OnFailure, IsCurrent, EndAttempt, Rows, Inv, Pow2;
      NextKeeps(config, View(), DoFail(k, no, owner, error, clock - now));
      ghost var s := View();
      if k !in steps || steps[k].status != Running {
        return Stale;
      }
      var current := IsCurrentAttempt(k, no, owner);
      if !current {
        return Stale;
      }
      AcceptedNumber(s, k, no, owner);
      var step := steps[k];
      var attempts := EndAttempt(step.attempts, no, Errored(now));
      var ended;
      var kind;
      if RunTerminal(status) || error.cancelled {
        ended, kind, d := step.(status := Cancelled, attempts := attempts, updatedAt := clock), StepCancelled, Dropped;
      } else {
        var retryAt := now + RetryDelay(config, no);
        if error.retryable && no < AttemptLimit(config, k) && retryAt < hard {
          Save(k, step.(status := RetryWait, retryAt := Some(retryAt), attempts := attempts));
          AddEvent(StepRetryScheduled, k, no);
          return Retrying;
        }
        ended, kind, d := step.(status := Failed, attempts := attempts, updatedAt := clock), StepFailed, Ended;
      }
      InvRows(config, s);
      FailureNeverRaisesHere(config, s, k, no, owner, error, now);
      var raised := HookFailure(k, ended, error.code);
      Save(k, ended);
      AddEvent(kind, k, no);
    }

    method Renew(k: StepKey, no: nat, owner: Worker, now: Time) returns (renewed: bool)
      requires Valid() && now <= clock
      modifies this
      ensures Valid()
      ensures View() == Next(config, old(View()), DoRenew(k, no, owner, old(clock) - now))
      ensures renewed <==> InTime(old(View()), k, no, owner, now)
    {
      hide Inv, IsCurrent, ExtendLease, Locals, InTime;
      NextKeeps(config, View(), DoRenew(k, no, owner, clock - now));
      InvLocals(config, View());
      OnlyAcceptedInTime(View(), k, no, owner, now);
      if k !in steps || steps[k].status != Running {
        return false;
      }
      var current := IsCurrentAttempt(k, no, owner);
      if !current {
        return false;
      }
      var step := steps[k];
      InTimeIs(View(), k, no, owner, now);
      var found := AttemptNo(step.attempts, no);
      if found.None? || now >= found.value.deadline {
        return false;
      }
      var until := Min(found.value.deadline, now + config.leaseExtension);
      if until > found.value.leasedUntil {
        steps := steps[k := step.(attempts := ExtendLease(step.attempts, no, until))];
      }
      return true;
    }

    // -------------------------------------------------------------- recovery

    method MakeReady(k: StepKey, seen: StepStatus, now: Time) returns (ready: bool)
      requires Valid() && now <= clock
      modifies this
      ensures Valid() && clock == old(clock)
      ensures View() == WorkflowModel.MakeReady(old(View()), k, seen, now)
      ensures ready <==> k in steps && steps[k].status == Ready
      ensures unchanged(this) || !old(k in steps && steps[k].status == Ready)
    {
      hide Inv, OpenLease, ExpireAttempts;
      MakeReadyKeeps(config, View(), k, seen, now);
      if k !in steps {
        return false;
      }
      var step := steps[k];
      if seen == RetryWait && step.status == RetryWait {
        if step.retryAt.None? || step.retryAt.value > now {
          return false;
        }
        Save(k, step.(status := Ready, retryAt := None));
        return true;
      }
      if seen == Running && step.status == Running {
        var lease := OpenLease(step.attempts);
        if lease.None? || lease.value > now {
          return false;
        }
        Save(k, step.(status := Ready, attempts := ExpireAttempts(step.attempts, now)));
        return true;
      }
      return step.status == Ready;
    }

    method MarkDispatched(k: StepKey, now: Time)
      requires Valid() && now <= clock
      modifies this
      ensures Valid() && clock == old(clock)
      ensures View() == WorkflowModel.MarkDispatched(old(View()), k, now)
    {
      hide Inv;
      MarkDispatchedKeeps(config, View(), k, now);
      if k in steps && steps[k].status == Ready {
        steps := steps[k := steps[k].(updatedAt := now)];
      }
    }

    /** Other transactions that commit in the meantime. */
    method Meanwhile(others: seq<Action>)
      requires Valid()
      modifies this
      ensures Valid() && View() == Exec(config, old(View()), others) && old(clock) <= clock
    {
      hide Inv, Exec;
      ExecKeeps(config, View(), others);
      ExecMonotone(config, View(), others);
      Restore(Exec(config, View(), others));
    }

    /** One reconciler cycle over a snapshot that may be arbitrarily old. Each recovery and each
        bookkeeping update is a transaction of its own: `before[i]` commits before item i is
        looked at, `between[i]` between its delivery and its bookkeeping. `broker[i]` and
        `marked[i]` say whether these two work. The cycle does nothing to the rows but these
        transitions. What it recovers is READY when it is handed to the broker; what the snapshot
        calls READY is handed over as it is, since claiming sorts out the rest. `seen[i]` is the
        run when item i is looked at. */
    method RunOnce(
        items: seq<Snapshot>, now: Time, broker: seq<bool>, marked: seq<bool>,
        before: seq<seq<Action>>, between: seq<seq<Action>>)
      returns (recovered: nat, dispatched: nat, failed: nat, delivered: seq<StepKey>,
               ghost trace: seq<Action>, ghost seen: seq<Run>)
      requires Valid() && now <= clock
      requires |broker| == |marked| == |before| == |between| == |items|
      modifies this
      ensures Valid()
      ensures View() == Exec(config, old(View()), trace)
      ensures forall a :: a in trace ==>
                a.DoMakeReady? || a.DoMarkDispatched? || AmongOthers(a, before) || AmongOthers(a, between)
      ensures |seen| == |items| && Accounted(config, old(View()), trace, items, seen, now, broker, marked)
      ensures Cycle(recovered, delivered, failed) == CycleOf(items, seen, now, broker, marked)
      ensures dispatched == |delivered|
    {
      hide Inv, WorkflowModel.MakeReady, WorkflowModel.MarkDispatched, Exec, Decide, Locals, Accounted, CycleOf;
      hide HandedOver, Lapsed, LookedAt, BookedDelivery;
      recovered, dispatched, failed, delivered, trace, seen := 0, 0, 0, [], [], [];
      ghost var start := View();
      NothingDone(config, start);
      NothingSeen(config, start, items, now, broker, marked);
      for i := 0 to |items|
        invariant Valid() && now <= clock
        invariant View() == Exec(config, start, trace)
        invariant forall a :: a in trace ==>
                    a.DoMakeReady? || a.DoMarkDispatched? || AmongOthers(a, before) || AmongOthers(a, between)
        invariant |seen| == i && Accounted(config, start, trace, items, seen, now, broker, marked)
        invariant Cycle(recovered, delivered, failed) == CycleOf(items[..i], seen, now, broker[..i], marked[..i])
        invariant dispatched == |delivered|
      {
        var item := items[i];
        Meanwhile(before[i]);
        ExecAppend(config, start, trace, before[i]);
        AccountedMore(config, start, trace, before[i], items, seen, now, broker, marked);
        trace := trace + before[i];
        ghost var s := View();
        var decision := Decide(item, now);
        DecisionIs(item, now);
        assert (seen + [s])[..i] == seen;
        CycleMore(items, seen + [s], now, broker, marked, i);
        NotHandedOver(item, s, now);
        if decision.None? {
          AccountedNext(config, start, trace, items, seen, s, now, broker, marked);
          seen := seen + [s];
          continue;
        }
        if decision.value != DispatchReady {
          InvLocals(config, s);
          ReadyIsHandedOver(config, s, item, now);
          AppendOne(config, start, trace, DoMakeReady(item.key, item.status, clock - now));
          AccountedMore(config, start, trace, [DoMakeReady(item.key, item.status, clock - now)], items, seen, now, broker, marked);
          LookedAtLast(config, start, trace, item, s, now);
          trace := trace + [DoMakeReady(item.key, item.status, clock - now)];
          var ready := MakeReady(item.key, item.status, now);
          if !ready {
            AccountedNext(config, start, trace, items, seen, s, now, broker, marked);
            seen := seen + [s];
            continue;
          }
          recovered := recovered + 1;
        }
        if broker[i] {
          dispatched, delivered := dispatched + 1, delivered + [item.key];
          Meanwhile(between[i]);
          ExecAppend(config, start, trace, between[i]);
          AccountedMore(config, start, trace, between[i], items, seen, now, broker, marked);
          if Lapsed(item, now) { LookedAtMore(config, start, trace, between[i], item, s, now); }
          trace := trace + between[i];
          if marked[i] {
            ghost var mark := DoMarkDispatched(item.key, clock - now);
            AppendOne(config, start, trace, mark);
            AccountedMore(config, start, trace, [mark], items, seen, now, broker, marked);
            if Lapsed(item, now) { LookedAtMore(config, start, trace, [mark], item, s, now); }
            BookedLast(trace, mark);
            trace := trace + [mark];
            MarkDispatched(item.key, now);
          } else {
            failed := failed + 1;
          }
        } else {
          failed := failed + 1;
        }
        AccountedNext(config, start, trace, items, seen, s, now, broker, marked);
        seen := seen + [s];
      }
      assert items[..|items|] == items && broker[..|items|] == broker && marked[..|items|] == marked;
    }

    method Cancel()
      requires Valid()
      modifies this
      ensures Valid()
      ensures View() == Next(config, old(View()), DoCancel)
    {
      hide Inv;
      NextKeeps(config, View(), DoCancel);
      if !RunTerminal(status) {
        status := RunCancelled;
        AddEvent(RunWasCancelled, Route, 0);
      }
    }
  }

  // ---------------------------------------------------------------- facts the methods lean on

  lemma InvRows(c: Config, s: Run)
    requires Inv(c, s)
    ensures Rows(s)
  {
  }

  lemma RowsIgnoreUsage(s: Run, t: Run)
    requires Rows(s) && t == s.(usage := t.usage)
    ensures Rows(t)
  {
  }

  lemma RowsIgnoreStatus(s: Run)
    requires Rows(s)
    ensures Rows(s.(status := RunRunning))
  {
  }

  lemma MissedPhaseNeverRaises(c: Config, s: Run, k: StepKey)
    requires Inv(c, s) && !RunTerminal(s.status) && k in s.steps && s.steps[k].status == Ready
    ensures var ended := MissedPhase(s, k);
            OnFailure(ended, k, PhaseDeadlineExceeded).Some? && k in OnFailure(ended, k, PhaseDeadlineExceeded).value.steps
            && OnFailure(ended, k, PhaseDeadlineExceeded).value.steps[k].status == Failed
  {
    hide Inv, Books, Rows, Locals, OnFailure;
    MissedPhaseBooks(c, s, k);
    OnFailureGrows(MissedPhase(s, k), k, PhaseDeadlineExceeded);
  }

  lemma InvLocals(c: Config, s: Run)
    requires Inv(c, s)
    ensures Locals(s)
  {
  }

  lemma OnlyAcceptedInTime(s: Run, k: StepKey, no: nat, owner: Worker, now: Time)
    ensures InTime(s, k, no, owner, now) ==> Accepts(s, k, no, owner)
  {
  }

  lemma NothingSeen(c: Config, start: Run, items: seq<Snapshot>, now: Time, broker: seq<bool>, marked: seq<bool>)
    requires |items| == |broker| == |marked|
    ensures Accounted(c, start, [], items, [], now, broker, marked)
    ensures CycleOf(items[..0], [], now, broker[..0], marked[..0]) == Cycle(0, [], 0)
  {
  }

  lemma NotHandedOver(item: Snapshot, s: Run, now: Time)
    ensures HandedOver(item, s, now) ==> item.status == Ready || Lapsed(item, now)
    ensures item.status == Ready ==> HandedOver(item, s, now) && !Lapsed(item, now)
  {
  }

  lemma LookedAtLast(c: Config, start: Run, trace: seq<Action>, item: Snapshot, s: Run, now: Time)
    requires s == Exec(c, start, trace) && now <= s.clock
    ensures LookedAt(c, start, trace + [DoMakeReady(item.key, item.status, s.clock - now)], item, s, now)
  {
    hide Exec;
    var more := trace + [DoMakeReady(item.key, item.status, s.clock - now)];
    assert more[..|trace|] == trace && more[|trace|] == DoMakeReady(item.key, item.status, s.clock - now);
  }

  lemma BookedLast(trace: seq<Action>, mark: Action)
    requires mark.DoMarkDispatched?
    ensures BookedDelivery(trace + [mark], mark.key)
  {
    assert (trace + [mark])[|trace|] == mark;
  }

  lemma NothingDone(c: Config, s: Run)
    ensures Exec(c, s, []) == s
  {
  }

  lemma AppendOne(c: Config, s: Run, trace: seq<Action>, a: Action)
    ensures Exec(c, s, trace + [a]) == Next(c, Exec(c, s, trace), a)
  {
    hide Next;
    assert (trace + [a])[..|trace|] == trace;
  }

  lemma SuccessKeepsRow(s: Run, k: StepKey, out: Artifact)
    requires k in s.steps
    ensures var t := OnSuccess(s, k, out);
            t.Some? ==> k in t.value.steps && t.value.steps[k] == s.steps[k]
  {
    OnSuccessGrows(s, k, out);
  }

  lemma SuccessRarelyRaises(c: Config, s: Run, k: StepKey, no: nat, owner: Worker, out: Artifact, cost: Charge, now: Time)
    requires Inv(c, s) && Accepts(s, k, no, owner) && !RunTerminal(s.status)
    requires OnSuccess(Finish(s, k, no, out, cost, now), k, out).None?
    ensures !Fits(k, out) || (k == Synthesize && !ConsistentAnswer(out.quality, out.reason))
  {
    hide Graph, Live, Accounts, History, OnSuccess, Rows, Locals;
    if Fits(k, out) {
      FinishKeeps(c, s, k, no, owner, out, cost, now);
      RunningStepRunningRun(c, s, k);
      OnSuccessHealthy(Finish(s, k, no, out, cost, now), s.steps, k, out);
    }
  }

  lemma FailureNeverRaisesHere(c: Config, s: Run, k: StepKey, no: nat, owner: Worker, error: StepError, now: Time)
    requires Inv(c, s) && Accepts(s, k, no, owner)
    ensures OnFailure(Abandon(s, k, no, now), k, error.code).Some?
    ensures OnFailure(FailStep(s, k, no, now), k, error.code).Some?
  {
    hide Inv, OnFailure, Books, Rows, Locals, EndAttempt, IsCurrent;
    if RunTerminal(s.status) {
      HookStatus(Abandon(s, k, no, now), k, error.code);
      HookStatus(FailStep(s, k, no, now), k, error.code);
    } else {
      AbandonKeeps(c, s, k, no, owner, now);
      FailStepKeeps(c, s, k, no, owner, now);
      FailureNeverRaises(c, s, Abandon(s, k, no, now), k, error.code);
      FailureNeverRaises(c, s, FailStep(s, k, no, now), k, error.code);
    }
  }
}
