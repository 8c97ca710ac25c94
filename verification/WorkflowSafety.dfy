/** Safety of whole runs: nothing is stranded, joins fire once, stale reports are fenced off,
    charges and retries are bounded, and recovery loses no step. */
module WorkflowSafety {
  import opened Wrappers
  import opened WorkflowModel
  import opened WorkflowInvariant
  import opened WorkflowGraph
  import opened WorkflowPreservation

  // ---------------------------------------------------------------- never stranded

  /** The first unfinished step along the pipeline of a run that owes nothing. */
  lemma LiveHasPending(m: StepMap) returns (k: StepKey)
    requires Graph(m) && Live(m)
    ensures Pending(m, k)
  {
    if Synthesize in m {
      k := Synthesize;
    } else if !Terminal(m[Route].status) {
      k := Route;
    } else if !Terminal(m[Plan].status) {
      k := Plan;
    } else if !DiscoverDone(m) {
      k :| k in m && k.Discover? && !Terminal(m[k].status);
    } else if !Terminal(m[Select].status) {
      k := Select;
    } else if !FetchExtractDone(m) {
      k :| k in m && FetchOrExtract(k) && !Terminal(m[k].status);
    } else {
      k := Verify;
    }
  }

  /** Whatever succeeds, fails, is cancelled, misses a phase deadline or loses its lease, an
      unfinished run always has an unfinished step: no join is ever missed. */
  lemma NeverStranded(c: Config, s: Run)
    requires Reachable(c, s) && !RunTerminal(s.status)
    ensures exists k :: Pending(s.steps, k)
  {
    ReachableOk(c, s);
    var k := LiveHasPending(s.steps);
  }

  // ---------------------------------------------------------------- rows only move forward

  predicate AttemptKept(a: Attempt, b: Attempt) {
    && b.no == a.no && b.owner == a.owner && b.deadline == a.deadline && b.startedAt == a.startedAt
    && (!a.end.Open? ==> b == a)
  }

  /** Finished rows never change, inputs never change, and finished attempts never change. */
  predicate StepMonotone(st: Step, st': Step) {
    && st'.input == st.input
    && (Terminal(st.status) ==> st' == st)
    && |st.attempts| <= |st'.attempts|
    && (forall i :: 0 <= i < |st.attempts| ==> AttemptKept(st.attempts[i], st'.attempts[i]))
  }

  predicate Monotone(s: Run, t: Run) {
    && (forall k :: k in s.steps ==> k in t.steps && StepMonotone(s.steps[k], t.steps[k]))
    && (RunTerminal(s.status) ==> t.status == s.status && t.outcome == s.outcome && t.steps.Keys == s.steps.Keys)
    && t.hard == s.hard && t.mode == s.mode && t.soft == s.soft && t.reserve == s.reserve
    && s.clock <= t.clock
  }

  lemma MonotoneTrans(s: Run, t: Run, u: Run)
    requires Monotone(s, t) && Monotone(t, u)
    ensures Monotone(s, u)
  {
  }

  lemma GrownIsMonotone(s: Run, s1: Run, t: Run, k: StepKey)
    requires Grown(s1, t) && k in s.steps && k in s1.steps && s1.steps == s.steps[k := s1.steps[k]]
    requires StepMonotone(s.steps[k], s1.steps[k]) && !RunTerminal(s.status)
    requires s1.hard == s.hard && s1.mode == s.mode && s1.clock == s.clock
    requires s1.soft == s.soft && s1.reserve == s.reserve
    ensures Monotone(s, t)
  {
  }

  lemma ClaimMonotone(c: Config, s: Run, k: StepKey, w: Worker, now: Time)
    ensures Monotone(s, Claim(c, s, k, w, now))
  {
    hide Grown, OnFailure;
    if k in s.steps && s.steps[k].status == Ready && !RunTerminal(s.status)
       && s.hard > now && now >= PhaseDeadline(s, k) {
      var s1 := Put(StartRun(s), k, s.steps[k].(status := Failed, retryAt := None));
      if OnFailure(s1, k, PhaseDeadlineExceeded).Some? {
        OnFailureGrows(s1, k, PhaseDeadlineExceeded);
        GrownIsMonotone(s, s1, OnFailure(s1, k, PhaseDeadlineExceeded).value, k);
      }
    }
  }

  lemma SucceedMonotone(s: Run, k: StepKey, no: nat, w: Worker, out: Artifact, cost: Charge, now: Time)
    ensures Monotone(s, Succeed(s, k, no, w, out, cost, now))
  {
    hide Grown, OnSuccess, IsCurrent;
    if Accepts(s, k, no, w) && !RunTerminal(s.status) {
      var s1 := Finish(s, k, no, out, cost, now);
      if OnSuccess(s1, k, out).Some? {
        OnSuccessGrows(s1, k, out);
        GrownIsMonotone(s, s1, OnSuccess(s1, k, out).value, k);
      }
    }
  }

  /** The step has ended, the hook has run on it, and the event is logged. */
  lemma EndedMonotone(s: Run, s1: Run, k: StepKey, code: nat, kind: EventKind, no: nat)
    requires k in s.steps && k in s1.steps && s1.steps == s.steps[k := s1.steps[k]]
    requires StepMonotone(s.steps[k], s1.steps[k]) && s1 == s.(steps := s1.steps)
    requires OnFailure(s1, k, code).Some?
    ensures Monotone(s, Log(OnFailure(s1, k, code).value, kind, k, no))
  {
    hide Grown, OnFailure;
    if RunTerminal(s.status) {
      HookStatus(s1, k, code);
    } else {
      OnFailureGrows(s1, k, code);
      GrownIsMonotone(s, s1, OnFailure(s1, k, code).value, k);
    }
  }

  lemma EndedStep(s: Run, k: StepKey, no: nat, now: Time)
    requires k in s.steps && s.steps[k].status == Running
    ensures StepMonotone(s.steps[k], Abandon(s, k, no, now).steps[k])
    ensures StepMonotone(s.steps[k], FailStep(s, k, no, now).steps[k])
  {
  }

  lemma AcceptedNumber(s: Run, k: StepKey, no: nat, owner: Worker)
    requires Accepts(s, k, no, owner)
    ensures 1 <= no
  {
  }

  lemma RetryMonotone(c: Config, s: Run, k: StepKey, no: nat, now: Time)
    requires k in s.steps && s.steps[k].status == Running && 1 <= no
    ensures Monotone(s, Log(RetryLater(c, s, k, no, now), StepRetryScheduled, k, no))
  {
    hide Pow2;
  }

  lemma FailMonotone(c: Config, s: Run, k: StepKey, no: nat, owner: Worker, e: StepError, now: Time)
    ensures Monotone(s, Fail(c, s, k, no, owner, e, now))
  {
    hide Grown, OnFailure, Pow2, IsCurrent, Monotone, StepMonotone, RetryLater;
    SelfMonotone(s);
    if Accepts(s, k, no, owner) {
      EndedStep(s, k, no, now);
      AcceptedNumber(s, k, no, owner);
      if RunTerminal(s.status) || e.cancelled {
        if OnFailure(Abandon(s, k, no, now), k, e.code).Some? {
          EndedMonotone(s, Abandon(s, k, no, now), k, e.code, StepCancelled, no);
        }
      } else if MayRetry(c, s, k, no, e, now) {
        RetryMonotone(c, s, k, no, now);
      } else if OnFailure(FailStep(s, k, no, now), k, e.code).Some? {
        EndedMonotone(s, FailStep(s, k, no, now), k, e.code, StepFailed, no);
      }
    }
  }

  lemma RenewMonotone(c: Config, s: Run, k: StepKey, no: nat, owner: Worker, now: Time)
    ensures Monotone(s, Renew(c, s, k, no, owner, now))
  {
    hide IsCurrent;
  }

  lemma MakeReadyMonotone(s: Run, k: StepKey, seen: StepStatus, now: Time)
    ensures Monotone(s, MakeReady(s, k, seen, now))
  {
    hide OpenLease;
  }

  lemma NextMonotone(c: Config, s: Run, a: Action)
    ensures Monotone(s, Next(c, s, a))
  {
    hide Claim, Succeed, Fail, Renew, MakeReady, AttemptKept;
    match a
    case DoClaim(k, w, age) => ClaimMonotone(c, s, k, w, s.clock - age);
    case DoSucceed(k, no, w, out, cost, age) => SucceedMonotone(s, k, no, w, out, cost, s.clock - age);
    case DoFail(k, no, w, e, age) => FailMonotone(c, s, k, no, w, e, s.clock - age);
    case DoRenew(k, no, w, age) => RenewMonotone(c, s, k, no, w, s.clock - age);
    case DoMakeReady(k, seen, age) => MakeReadyMonotone(s, k, seen, s.clock - age);
    case _ => OtherMonotone(c, s, a);
  }

  lemma OtherMonotone(c: Config, s: Run, a: Action)
    requires a.Tick? || a.DoMarkDispatched? || a.DoPublish? || a.DoCancel?
    ensures Monotone(s, Next(c, s, a))
  {
  }

  lemma {:induction false} ExecMonotone(c: Config, s: Run, trace: seq<Action>)
    ensures Monotone(s, Exec(c, s, trace))
  {
    hide Monotone, Next;
    if trace == [] {
      assert Monotone(s, s) by { SelfMonotone(s); }
    } else {
      var t := Exec(c, s, trace[..|trace| - 1]);
      ExecMonotone(c, s, trace[..|trace| - 1]);
      NextMonotone(c, t, trace[|trace| - 1]);
      MonotoneTrans(s, t, Exec(c, s, trace));
    }
  }

  lemma {:induction false} ExecAppend(c: Config, s: Run, first: seq<Action>, second: seq<Action>)
    ensures Exec(c, s, first + second) == Exec(c, Exec(c, s, first), second)
  {
    hide Next;
    if second == [] {
      assert first + second == first;
    } else {
      var init := second[..|second| - 1];
      assert (first + second)[..|first + second| - 1] == first + init;
      ExecAppend(c, s, first, init);
    }
  }

  lemma SelfMonotone(s: Run)
    ensures Monotone(s, s)
  {
  }

  // ---------------------------------------------------------------- joins fire once

  /** Every step that appears was created behind its barrier, READY; in particular select
      waits for every discovery, and synthesize for every other step. */
  lemma CreatedBehindBarrier(c: Config, s: Run, a: Action, k: StepKey)
    requires Inv(c, s) && k !in s.steps && k in Next(c, s, a).steps
    ensures Barrier(Next(c, s, a).steps, k)
    ensures !RunTerminal(s.status)
  {
    NextKeeps(c, s, a);
    NextMonotone(c, s, a);
  }

  /** Once the synthesize step exists every other step has ended, for good, and no step is
      ever added again. */
  lemma {:induction false} NothingAfterSynthesize(c: Config, s: Run, trace: seq<Action>)
    requires Reachable(c, s) && Synthesize in s.steps
    ensures OthersDone(s.steps)
    ensures Exec(c, s, trace).steps.Keys == s.steps.Keys
    ensures forall k :: k in s.steps && k != Synthesize ==> Exec(c, s, trace).steps[k] == s.steps[k]
  {
    ReachableOk(c, s);
    assert Barrier(s.steps, Synthesize);
    ExecMonotone(c, s, trace);
    NoMoreKeys(c, s, trace);
  }

  lemma {:induction false} NoMoreKeys(c: Config, s: Run, trace: seq<Action>)
    requires Inv(c, s) && Synthesize in s.steps
    ensures Exec(c, s, trace).steps.Keys == s.steps.Keys
  {
    if trace != [] {
      var t := Exec(c, s, trace[..|trace| - 1]);
      NoMoreKeys(c, s, trace[..|trace| - 1]);
      ExecKeeps(c, s, trace[..|trace| - 1]);
      NoNewKey(c, t, trace[|trace| - 1]);
    }
  }

  lemma NoNewKey(c: Config, s: Run, a: Action)
    requires Inv(c, s) && Synthesize in s.steps
    ensures Next(c, s, a).steps.Keys == s.steps.Keys
  {
    hide Live, Rows, Accounts, History, Locals, RunOk, OnSuccess, OnFailure, IsCurrent;
    assert Barrier(s.steps, Synthesize);
    match a
    case DoClaim(k, w, age) =>
      if k in s.steps && s.steps[k].status == Ready {
        assert k == Synthesize;
        OnFailureOfSynthesize(Put(StartRun(s), k, s.steps[k].(status := Failed, retryAt := None)), PhaseDeadlineExceeded);
      }
    case DoSucceed(k, no, w, out, cost, age) =>
      if Accepts(s, k, no, w) {
        assert k == Synthesize;
        OnSuccessOfSynthesize(Finish(s, k, no, out, cost, s.clock - age), out);
      }
    case DoFail(k, no, w, e, age) =>
      if Accepts(s, k, no, w) {
        assert k == Synthesize;
        OnFailureOfSynthesize(Abandon(s, k, no, s.clock - age), e.code);
        OnFailureOfSynthesize(FailStep(s, k, no, s.clock - age), e.code);
      }
    case _ =>
  }

  lemma OnSuccessOfSynthesize(s: Run, out: Artifact)
    ensures OnSuccess(s, Synthesize, out).Some? ==> OnSuccess(s, Synthesize, out).value.steps == s.steps
  {
  }

  lemma OnFailureOfSynthesize(s: Run, code: nat)
    ensures OnFailure(s, Synthesize, code).Some? ==> OnFailure(s, Synthesize, code).value.steps == s.steps
  {
  }

  // ---------------------------------------------------------------- fencing

  /** A step is RUNNING exactly when exactly one of its attempts is open, and the open one
      carries the largest attempt number. */
  lemma RunningHasOneOpenAttempt(c: Config, s: Run, k: StepKey)
    requires Reachable(c, s) && k in s.steps
    ensures var a := s.steps[k].attempts;
            s.steps[k].status == Running <==>
              (exists i :: 0 <= i < |a| && a[i].end.Open? && a[i].no == MaxNo(a)
                           && forall j :: 0 <= j < |a| && a[j].end.Open? ==> j == i)
  {
    hide Graph, Live, Rows, Accounts, RunOk, History;
    ReachableOk(c, s);
    var a := s.steps[k].attempts;
    assert StepOk(k, s.steps[k], s.hard);
    MaxNoIs(a);
    if s.steps[k].status == Running {
      var i := |a| - 1;
      assert a[i].end.Open? && a[i].no == MaxNo(a);
    }
  }

  /** At most one attempt of a step ever succeeds, only a SUCCEEDED step has one, and the
      completion hook has run for it exactly once. */
  lemma SucceedsAtMostOnce(c: Config, s: Run, k: StepKey)
    requires Reachable(c, s)
    ensures CountEvents(s.events, StepSucceeded, k) == (if Succ(s.steps, k) then 1 else 0)
    ensures k in s.steps ==>
              var a := s.steps[k].attempts;
              forall i, j :: 0 <= i < |a| && 0 <= j < |a| && a[i].end.Done? && a[j].end.Done? ==> i == j && Succ(s.steps, k)
  {
    hide Graph, Live, Rows, Accounts, RunOk, CountEvents, EndedAttempts;
    ReachableOk(c, s);
    assert HistoryOk(c, s, k);
    if k in s.steps { assert StepOk(k, s.steps[k], s.hard); }
  }

  /** Once an attempt has ended (finished, failed or reclaimed), whatever its worker reports
      later, and however much later, changes nothing at all. */
  lemma StaleReportChangesNothing(
      c: Config, s: Run, trace: seq<Action>, k: StepKey, no: nat, owner: Worker,
      out: Artifact, cost: Charge, error: StepError, age: nat)
    requires Reachable(c, s) && k in s.steps
    requires 1 <= no <= |s.steps[k].attempts| && !s.steps[k].attempts[no - 1].end.Open?
    ensures var t := Exec(c, s, trace);
            && Next(c, t, DoSucceed(k, no, owner, out, cost, age)) == t
            && Next(c, t, DoFail(k, no, owner, error, age)) == t
            && Next(c, t, DoRenew(k, no, owner, age)) == t
  {
    hide Inv, Succeed, Fail, Renew;
    ReachableOk(c, s);
    var t := Exec(c, s, trace);
    ExecKeeps(c, s, trace);
    ExecMonotone(c, s, trace);
    EndedStaysEnded(c, s, t, k, no, owner);
    IgnoredUnlessAccepted(c, t, k, no, owner, out, cost, error, t.clock - age);
  }

  lemma EndedStaysEnded(c: Config, s: Run, t: Run, k: StepKey, no: nat, owner: Worker)
    requires Inv(c, t) && Monotone(s, t) && k in s.steps
    requires 1 <= no <= |s.steps[k].attempts| && !s.steps[k].attempts[no - 1].end.Open?
    ensures !Accepts(t, k, no, owner)
  {
    hide Graph, Live, Rows, Accounts, History, IsCurrent;
    assert AttemptKept(s.steps[k].attempts[no - 1], t.steps[k].attempts[no - 1]);
    if Accepts(t, k, no, owner) {
      AcceptedIsNewest(t, k, no, owner);
    }
  }

  lemma IgnoredUnlessAccepted(
      c: Config, t: Run, k: StepKey, no: nat, owner: Worker, out: Artifact, cost: Charge, error: StepError, now: Time)
    requires !Accepts(t, k, no, owner)
    ensures Succeed(t, k, no, owner, out, cost, now) == t
    ensures Fail(c, t, k, no, owner, error, now) == t
    ensures Renew(c, t, k, no, owner, now) == t
  {
  }

  // ---------------------------------------------------------------- accounting

  /** The recorded usage is the sum of what the SUCCEEDED steps cost, nothing else. */
  lemma UsageIsSucceededCost(c: Config, s: Run)
    requires Reachable(c, s)
    ensures s.usage == TotalCost(s.steps, s.order)
    ensures forall k :: k in s.order <==> k in s.steps
    ensures forall k :: k in s.steps && s.steps[k].status != Succeeded ==> StepCost(s.steps[k]) == NoUsage
  {
    ReachableOk(c, s);
    forall k | k in s.steps && s.steps[k].status != Succeeded ensures StepCost(s.steps[k]) == NoUsage {
      assert StepOk(k, s.steps[k], s.hard);
    }
  }

  /** A step is sent to retry at most limit - 1 times, even when lease reclaims use up
      attempt numbers in between. */
  lemma RetriesAreBounded(c: Config, s: Run, k: StepKey)
    requires Reachable(c, s)
    ensures CountEvents(s.events, StepRetryScheduled, k) <= AttemptLimit(c, k) - 1
  {
    hide Graph, Live, Rows, Accounts, RunOk, Locals, CountEvents, EndedAttempts;
    ReachableOk(c, s);
    assert HistoryOk(c, s, k);
  }

  // ---------------------------------------------------------------- recovery

  /** No step is lost: each unfinished step of an active run is in the reconciler's scan, or
      has an undelivered outbox row, or is READY within its grace window, or waits for a
      future retry time, or holds a live lease. */
  lemma NoStepIsLost(c: Config, s: Run, k: StepKey)
    requires Reachable(c, s) && !RunTerminal(s.status) && Pending(s.steps, k)
    ensures var st := s.steps[k];
            || Candidate(c, s, k, s.clock)
            || k in s.unpublished
            || (st.status == Ready && s.clock - c.grace < st.updatedAt)
            || (st.status == RetryWait && st.retryAt.Some? && s.clock < st.retryAt.value)
            || (st.status == Running && OpenLease(st.attempts).Some? && s.clock < OpenLease(st.attempts).value)
  {
    ReachableOk(c, s);
    assert StepOk(k, s.steps[k], s.hard);
    OpenLeaseIs(s.steps[k].attempts);
  }

  /** What the scan returns, recovery makes READY (the reconciler passes the scanned status
      and the scan's own time). */
  lemma CandidateBecomesReady(c: Config, s: Run, k: StepKey, now: Time)
    requires Reachable(c, s) && Candidate(c, s, k, now)
    ensures MakeReady(s, k, s.steps[k].status, now).steps[k].status == Ready
  {
  }

  /** Acting on any stale candidate, at any stale time, keeps every invariant and never
      touches a step that finished or still holds a live lease. */
  lemma StaleRecoveryIsHarmless(c: Config, s: Run, k: StepKey, seen: StepStatus, now: Time)
    requires Reachable(c, s) && now <= s.clock
    ensures Inv(c, MakeReady(s, k, seen, now))
    ensures k in s.steps && Terminal(s.steps[k].status) ==> MakeReady(s, k, seen, now) == s
    ensures k in s.steps && s.steps[k].status == Running && |s.steps[k].attempts| > 0
              && s.clock < s.steps[k].attempts[|s.steps[k].attempts| - 1].leasedUntil
            ==> MakeReady(s, k, seen, now) == s
  {
    hide Inv;
    ReachableOk(c, s);
    MakeReadyKeeps(c, s, k, seen, now);
    LiveLeaseIsKept(c, s, k, seen, now);
  }

  lemma LiveLeaseIsKept(c: Config, s: Run, k: StepKey, seen: StepStatus, now: Time)
    requires Inv(c, s) && now <= s.clock
    ensures k in s.steps && s.steps[k].status == Running && |s.steps[k].attempts| > 0
              && s.clock < s.steps[k].attempts[|s.steps[k].attempts| - 1].leasedUntil
            ==> MakeReady(s, k, seen, now) == s
  {
    hide Graph, Live, Rows, Accounts, History;
    if k in s.steps {
      assert StepOk(k, s.steps[k], s.hard);
      OpenLeaseIs(s.steps[k].attempts);
    }
  }
}
