/** Every transition keeps the invariant. */
module WorkflowPreservation {
  import opened Wrappers
  import opened WorkflowModel
  import opened WorkflowInvariant
  import opened WorkflowGraph

  ghost predicate Books(c: Config, s: Run) {
    Rows(s) && Locals(s) && Accounts(s) && History(c, s)
  }

  /** `t` replaces the row of `k` by `st`, charges the difference, and logs at most one event. */
  ghost predicate Replaces(s: Run, t: Run, k: StepKey, st: Step) {
    && k in s.steps
    && t.steps == s.steps[k := st]
    && t.order == s.order && t.unpublished == s.unpublished && t.hard == s.hard
    && AddUsage(t.usage, StepCost(s.steps[k])) == AddUsage(s.usage, StepCost(st))
    && (t.events == s.events || (|t.events| == |s.events| + 1 && t.events[..|s.events|] == s.events))
  }

  lemma ReplaceKeepsRows(c: Config, s: Run, t: Run, k: StepKey, st: Step)
    requires Books(c, s) && Replaces(s, t, k, st) && StepOk(k, st, s.hard)
    ensures Rows(t) && Locals(t) && Accounts(t)
  {
    hide History, StepOk, StepCost, TotalCost;
    assert t.steps.Keys == s.steps.Keys;
    assert k in s.order;
    TotalCostPut(s.steps, s.order, k, st);
  }

  lemma ReplaceKeepsHistory(c: Config, s: Run, t: Run, k: StepKey, st: Step)
    requires Books(c, s) && Replaces(s, t, k, st)
    requires HistoryOk(c, t, k)
    requires t.events == s.events || t.events[|s.events|].key == k
    ensures History(c, t)
  {
    forall j ensures HistoryOk(c, t, j) {
      assert HistoryOk(c, s, j);
      if t.events != s.events {
        assert t.events[..|t.events| - 1] == s.events;
      }
    }
  }

  /** What an event appended to the log does to the counts of its own step. */
  lemma LogCounts(events: seq<Event>, e: Event, kind: EventKind)
    ensures CountEvents(events + [e], kind, e.key) == CountEvents(events, kind, e.key) + (if e.kind == kind then 1 else 0)
  {
    assert (events + [e])[..|events + [e]| - 1] == events;
  }

  lemma LogGrows(s: Run, t: Run, kind: EventKind, k: StepKey, no: nat)
    requires Grown(s, t)
    ensures Grown(Log(s, kind, k, no), Log(t, kind, k, no))
  {
  }

  /** A row replaced, the change logged: the books stay right when this step's history does. */
  lemma LoggedReplace(c: Config, s: Run, t: Run, k: StepKey, st: Step, kind: EventKind, no: nat)
    requires Books(c, s) && Replaces(s, t, k, st) && t.events == s.events && StepOk(k, st, s.hard)
    requires (st.status == Succeeded) == (s.steps[k].status == Succeeded || kind == StepSucceeded)
    requires kind == StepSucceeded ==> s.steps[k].status != Succeeded
    requires EndedAttempts(st) >= EndedAttempts(s.steps[k])
    requires kind == StepRetryScheduled ==>
               EndedAttempts(st) == EndedAttempts(s.steps[k]) + 1 && EndedAttempts(st) <= AttemptLimit(c, k) - 1
    ensures Books(c, Log(t, kind, k, no))
  {
    hide StepOk, StepCost, TotalCost, EndedAttempts, Rows, Locals, Accounts;
    var u := Log(t, kind, k, no);
    LogCounts(s.events, Event(kind, k, no), StepSucceeded);
    LogCounts(s.events, Event(kind, k, no), StepRetryScheduled);
    assert HistoryOk(c, s, k);
    assert Replaces(s, u, k, st);
    ReplaceKeepsRows(c, s, u, k, st);
    assert HistoryOk(c, u, k);
    ReplaceKeepsHistory(c, s, u, k, st);
  }

  lemma QuietReplace(c: Config, s: Run, t: Run, k: StepKey, st: Step)
    requires Books(c, s) && Replaces(s, t, k, st) && t.events == s.events && StepOk(k, st, s.hard)
    requires (st.status == Succeeded) == (s.steps[k].status == Succeeded)
    requires EndedAttempts(st) >= EndedAttempts(s.steps[k])
    ensures Books(c, t)
  {
    hide StepOk, StepCost, TotalCost, EndedAttempts, Rows, Locals, Accounts;
    assert HistoryOk(c, s, k);
    ReplaceKeepsRows(c, s, t, k, st);
    assert HistoryOk(c, t, k);
    ReplaceKeepsHistory(c, s, t, k, st);
  }

  lemma GrownLoggedBooks(c: Config, s: Run, t: Run, kind: EventKind, k: StepKey, no: nat)
    requires Grown(s, t) && Books(c, Log(s, kind, k, no))
    ensures Books(c, Log(t, kind, k, no))
  {
    LogGrows(s, t, kind, k, no);
    GrownKeepsBooks(c, Log(s, kind, k, no), Log(t, kind, k, no));
  }

  // ---------------------------------------------------------------- run status after the hook

  lemma HookStatus(s: Run, k: StepKey, code: nat)
    ensures RunTerminal(s.status) ==> OnFailure(s, k, code) == Some(s)
  {
  }

  // ---------------------------------------------------------------- quiet transitions

  /** One row moves between unfinished states: graph and run are untouched. */
  lemma Rearranged(c: Config, s: Run, t: Run, k: StepKey, st: Step)
    requires Inv(c, s) && Books(c, t) && t.steps == s.steps[k := st] && k in s.steps
    requires SameProgress(s.steps, t.steps)
    requires t.status == s.status || (t.status == RunRunning && !RunTerminal(s.status))
    requires t.status == RunQueued ==> st.status == Ready
    requires t.soft == s.soft && t.hard == s.hard && t.reserve == s.reserve && t.outcome == s.outcome
    ensures Inv(c, t)
  {
    hide Graph, Live, Rows, Locals, Accounts, History;
    SameProgressKeepsGraph(s.steps, t.steps);
  }

  lemma ClaimedOk(k: StepKey, st: Step, hard: Time, clock: Time, attempt: Attempt)
    requires StepOk(k, st, hard) && st.status == Ready
    requires attempt.no == |st.attempts| + 1 && attempt.end.Open? && attempt.leasedUntil <= attempt.deadline <= hard
    ensures var run := st.(status := Running, retryAt := None, attempts := st.attempts + [attempt], updatedAt := clock);
            StepOk(k, run, hard) && StepCost(run) == StepCost(st) && EndedAttempts(run) == EndedAttempts(st)
  {
    var a := st.attempts;
    assert forall i :: 0 <= i < |a| ==> a[i].end.Errored?;
  }

  lemma ClaimLeaseKeeps(c: Config, s: Run, k: StepKey, worker: Worker, now: Time)
    requires Inv(c, s) && k in s.steps && s.steps[k].status == Ready && !RunTerminal(s.status)
    requires now < PhaseDeadline(s, k)
    ensures Inv(c, ClaimLease(c, s, k, worker, now))
  {
    hide Graph, Live, Rows, Accounts, History, AttemptsOk, StepCost, EndedAttempts, Fits, HistoryOk, TotalCost;
    var t := ClaimLease(c, s, k, worker, now);
    assert StepOk(k, s.steps[k], s.hard);
    var no := MaxNo(s.steps[k].attempts) + 1;
    var deadline := PhaseDeadline(s, k);
    var attempt := Attempt(no, worker, Min(deadline, now + c.leaseSeconds), deadline, now, Open);
    NextNo(k, s.steps[k], s.hard);
    ClaimedOk(k, s.steps[k], s.hard, s.clock, attempt);
    var quiet := t.(events := s.events);
    LoggedReplace(c, s, quiet, k, t.steps[k], StepStarted, no);
    assert t == Log(quiet, StepStarted, k, no);
    Rearranged(c, s, t, k, t.steps[k]);
  }

  lemma NextNo(k: StepKey, st: Step, hard: Time)
    requires StepOk(k, st, hard)
    ensures MaxNo(st.attempts) == |st.attempts|
  {
    MaxNoIs(st.attempts);
  }

  /** Expiring the open attempts of a running step ends exactly its newest attempt. */
  lemma ExpireIs(k: StepKey, st: Step, hard: Time, now: Time)
    requires StepOk(k, st, hard) && st.status == Running
    requires OpenLease(st.attempts).Some? && OpenLease(st.attempts).value <= now
    ensures var a := st.attempts;
            ExpireAttempts(a, now) == a[..|a| - 1] + [a[|a| - 1].(end := Errored(now))]
    ensures StepOk(k, st.(status := Ready, attempts := ExpireAttempts(st.attempts, now)), hard)
  {
    OpenLeaseIs(st.attempts);
  }

  /** A row moves between unfinished states without charge or event. */
  lemma QuietMove(c: Config, s: Run, t: Run, k: StepKey, st: Step)
    requires Inv(c, s) && k in s.steps && !Terminal(s.steps[k].status) && StepOk(k, st, s.hard)
    requires t == s.(steps := s.steps[k := st])
    requires !Terminal(st.status) && StepCost(st) == StepCost(s.steps[k])
    requires EndedAttempts(st) >= EndedAttempts(s.steps[k])
    requires s.status == RunQueued ==> st.status == Ready
    ensures Inv(c, t)
  {
    hide Graph, Live, Rows, Accounts, History, StepOk, StepCost, EndedAttempts;
    QuietReplace(c, s, t, k, st);
    Rearranged(c, s, t, k, st);
  }

  lemma RetryReadyOk(k: StepKey, st: Step, hard: Time, clock: Time)
    requires StepOk(k, st, hard) && st.status == RetryWait
    ensures var r := st.(status := Ready, retryAt := None, updatedAt := clock);
            StepOk(k, r, hard) && StepCost(r) == StepCost(st) && EndedAttempts(r) == EndedAttempts(st)
  {
  }

  lemma LeaseReadyOk(k: StepKey, st: Step, hard: Time, now: Time, clock: Time)
    requires StepOk(k, st, hard) && st.status == Running
    requires OpenLease(st.attempts).Some? && OpenLease(st.attempts).value <= now
    ensures var r := st.(status := Ready, attempts := ExpireAttempts(st.attempts, now), updatedAt := clock);
            StepOk(k, r, hard) && StepCost(r) == StepCost(st) && EndedAttempts(r) == EndedAttempts(st) + 1
  {
    ExpireIs(k, st, hard, now);
  }

  lemma StepIsOk(c: Config, s: Run, k: StepKey)
    requires Inv(c, s) && k in s.steps
    ensures StepOk(k, s.steps[k], s.hard)
    ensures s.steps[k].status != Ready ==> s.status != RunQueued
  {
  }

  lemma MakeReadyKeeps(c: Config, s: Run, k: StepKey, seen: StepStatus, now: Time)
    requires Inv(c, s)
    ensures Inv(c, MakeReady(s, k, seen, now))
  {
    hide Inv, ExpireAttempts, OpenLease, StepOk, StepCost, EndedAttempts;
    var t := MakeReady(s, k, seen, now);
    if t != s {
      StepIsOk(c, s, k);
      if seen == RetryWait {
        RetryReadyOk(k, s.steps[k], s.hard, s.clock);
      } else {
        LeaseReadyOk(k, s.steps[k], s.hard, now, s.clock);
      }
      QuietMove(c, s, t, k, t.steps[k]);
    }
  }

  lemma RenewedOk(k: StepKey, st: Step, hard: Time, until: Time)
    requires StepOk(k, st, hard) && st.status == Running && until <= st.attempts[|st.attempts| - 1].deadline
    ensures var r := st.(attempts := ExtendLease(st.attempts, |st.attempts|, until));
            StepOk(k, r, hard) && StepCost(r) == StepCost(st) && EndedAttempts(r) == EndedAttempts(st)
  {
    var a := st.attempts;
    assert ExtendLease(a, |a|, until) == a[..|a| - 1] + [a[|a| - 1].(leasedUntil := until)];
  }

  lemma RenewKeeps(c: Config, s: Run, k: StepKey, no: nat, owner: Worker, now: Time)
    requires Inv(c, s)
    ensures Inv(c, Renew(c, s, k, no, owner, now))
  {
    hide Graph, Live, Rows, Accounts, History, ExtendLease, StepCost, EndedAttempts, AttemptsOk;
    var t := Renew(c, s, k, no, owner, now);
    if t != s {
      AcceptedIsNewest(s, k, no, owner);
      StepIsOk(c, s, k);
      RenewedOk(k, s.steps[k], s.hard, Min(s.steps[k].attempts[no - 1].deadline, now + c.leaseExtension));
      QuietMove(c, s, t, k, t.steps[k]);
    }
  }

  lemma MarkDispatchedKeeps(c: Config, s: Run, k: StepKey, now: Time)
    requires Inv(c, s)
    ensures Inv(c, MarkDispatched(s, k, now))
  {
    hide Graph, Live, Rows, Accounts, History;
    var t := MarkDispatched(s, k, now);
    if t != s {
      StepIsOk(c, s, k);
      QuietMove(c, s, t, k, t.steps[k]);
    }
  }

  // ---------------------------------------------------------------- transitions that end a step

  lemma EndedOk(k: StepKey, st: Step, hard: Time, now: Time, clock: Time)
    requires StepOk(k, st, hard) && st.status == Running
    ensures var no := |st.attempts|;
            var a := EndAttempt(st.attempts, no, Errored(now));
            && (forall end: StepStatus :: end.Failed? || end.Cancelled? ==>
                  StepOk(k, st.(status := end, attempts := a, updatedAt := clock), hard))
            && (forall at :: at < hard ==>
                  StepOk(k, st.(status := RetryWait, retryAt := Some(at), attempts := a, updatedAt := clock), hard))
  {
    EndAttemptOk(st.attempts, hard, Errored(now));
  }

  lemma FinishedOk(k: StepKey, st: Step, hard: Time, clock: Time, out: Artifact, cost: Usage)
    requires StepOk(k, st, hard) && st.status == Running && Fits(k, out)
    ensures var no := |st.attempts|;
            var done := st.(status := Succeeded, output := Some(out), updatedAt := clock,
                            attempts := EndAttempt(st.attempts, no, Done(out, cost)));
            StepOk(k, done, hard) && StepCost(done) == cost && EndedAttempts(done) == no
  {
    EndAttemptOk(st.attempts, hard, Done(out, cost));
  }

  /** A step of a finished run is cancelled: barriers stay, and a finished run owes nothing. */
  lemma EndInFinishedRun(c: Config, s: Run, t: Run, k: StepKey, st: Step)
    requires Inv(c, s) && Books(c, t) && t.steps == s.steps[k := st]
    requires Pending(s.steps, k) && Terminal(st.status)
    requires RunTerminal(t.status) && t.soft == s.soft && t.hard == s.hard && t.reserve == s.reserve
    requires t.outcome == s.outcome && (t.status == s.status || (t.status == RunFailed && !RunTerminal(s.status)))
    ensures Inv(c, t)
  {
    hide Graph, Live, Rows, Locals, Accounts, History;
    EndKeepsGraph(s.steps, t.steps, k);
  }

  /** A step ended without success in an active run, and the hook ran. */
  lemma FailedInActiveRun(c: Config, s: Run, s1: Run, s2: Run, k: StepKey, code: nat, kind: EventKind, no: nat)
    requires Inv(c, s) && !RunTerminal(s.status) && s1.status == RunRunning
    requires k in s.steps && k in s1.steps && s1.steps == s.steps[k := s1.steps[k]]
    requires Pending(s.steps, k) && Terminal(s1.steps[k].status) && s1.steps[k].status != Succeeded
    requires Books(c, Log(s1, kind, k, no)) && Rows(s1) && Locals(s1) && OnFailure(s1, k, code) == Some(s2)
    requires s1.soft == s.soft && s1.hard == s.hard && s1.reserve == s.reserve && s1.outcome == s.outcome
    ensures Inv(c, Log(s2, kind, k, no))
  {
    hide Graph, Live, Accounts, History, OnFailure, Rows, Locals, Grown;
    OnFailureGrows(s1, k, code);
    GrownLoggedBooks(c, s1, s2, kind, k, no);
    OnFailureHealthy(s1, s.steps, k, code);
    FailedRunOk(s, s1, s2);
  }

  lemma FailedRunOk(s: Run, s1: Run, s2: Run)
    requires RunOk(s) && !RunTerminal(s.status) && Grown(s1, s2)
    requires s1.soft == s.soft && s1.hard == s.hard && s1.reserve == s.reserve && s1.outcome == s.outcome
    requires s2.outcome == s1.outcome && (s2.status.RunRunning? || s2.status.RunFailed?)
    ensures RunOk(s2)
  {
  }

  lemma FailureNeverRaises(c: Config, s: Run, s1: Run, k: StepKey, code: nat)
    requires Inv(c, s) && !RunTerminal(s.status) && !RunTerminal(s1.status)
    requires k in s.steps && k in s1.steps && s1.steps == s.steps[k := s1.steps[k]]
    requires Rows(s1) && Locals(s1)
    requires Pending(s.steps, k) && Terminal(s1.steps[k].status) && s1.steps[k].status != Succeeded
    ensures OnFailure(s1, k, code).Some?
  {
    hide Graph, Live, Accounts, History, OnFailure, Rows, Locals;
    OnFailureHealthy(s1, s.steps, k, code);
  }

  /** A READY step that never started leaves no trace in the books when it ends. */
  lemma ReadyEndsOk(k: StepKey, st: Step, hard: Time, clock: Time)
    requires StepOk(k, st, hard) && st.status == Ready
    ensures st.retryAt == None
    ensures var a := st.(status := Cancelled, updatedAt := clock);
            StepOk(k, a, hard) && StepCost(a) == StepCost(st) && EndedAttempts(a) == EndedAttempts(st)
    ensures var b := st.(status := Failed, retryAt := None, updatedAt := clock);
            StepOk(k, b, hard) && StepCost(b) == StepCost(st) && EndedAttempts(b) == EndedAttempts(st)
  {
  }

  lemma ClaimInFinishedRun(c: Config, s: Run, k: StepKey)
    requires Inv(c, s) && k in s.steps && s.steps[k].status == Ready && RunTerminal(s.status)
    ensures Inv(c, Put(s, k, s.steps[k].(status := Cancelled)))
  {
    hide Graph, Live, Rows, Accounts, History, StepOk, StepCost, EndedAttempts;
    StepIsOk(c, s, k);
    ReadyEndsOk(k, s.steps[k], s.hard, s.clock);
    var t := Put(s, k, s.steps[k].(status := Cancelled));
    QuietReplace(c, s, t, k, t.steps[k]);
    EndInFinishedRun(c, s, t, k, t.steps[k]);
  }

  lemma ClaimPastHardDeadline(c: Config, s: Run, k: StepKey)
    requires Inv(c, s) && k in s.steps && s.steps[k].status == Ready && !RunTerminal(s.status)
    ensures Inv(c, Log(Put(s.(status := RunFailed), k, s.steps[k].(status := Failed, retryAt := None)), StepDeadline, k, 0))
  {
    hide Graph, Live, Rows, Accounts, History, StepOk, StepCost, EndedAttempts;
    StepIsOk(c, s, k);
    ReadyEndsOk(k, s.steps[k], s.hard, s.clock);
    var t := Put(s.(status := RunFailed), k, s.steps[k].(status := Failed, retryAt := None));
    LoggedReplace(c, s, t, k, t.steps[k], StepDeadline, 0);
    EndInFinishedRun(c, s, Log(t, StepDeadline, k, 0), k, t.steps[k]);
  }

  /** A step whose phase deadline has passed, before the hook runs. */
  function MissedPhase(s: Run, k: StepKey): Run
    requires k in s.steps
  {
    Put(StartRun(s), k, s.steps[k].(status := Failed, retryAt := None))
  }

  lemma MissedPhaseBooks(c: Config, s: Run, k: StepKey)
    requires Inv(c, s) && k in s.steps && s.steps[k].status == Ready && !RunTerminal(s.status)
    ensures var t := MissedPhase(s, k);
            Books(c, Log(t, StepPhaseDeadline, k, 0)) && Rows(t) && Locals(t) && t.status == RunRunning
            && OnFailure(t, k, PhaseDeadlineExceeded).Some?
  {
    hide Graph, Live, Rows, Accounts, History, StepOk, StepCost, EndedAttempts, OnFailure;
    StepIsOk(c, s, k);
    ReadyEndsOk(k, s.steps[k], s.hard, s.clock);
    var t := MissedPhase(s, k);
    LoggedReplace(c, s, t, k, t.steps[k], StepPhaseDeadline, 0);
    QuietReplace(c, s, t, k, t.steps[k]);
    FailureNeverRaises(c, s, t, k, PhaseDeadlineExceeded);
  }

  lemma ClaimKeeps(c: Config, s: Run, k: StepKey, worker: Worker, now: Time)
    requires Inv(c, s)
    ensures Inv(c, Claim(c, s, k, worker, now))
  {
    hide Inv, Books, OnFailure, ClaimLease, Rows, Locals;
    if k in s.steps && s.steps[k].status == Ready {
      if RunTerminal(s.status) {
        ClaimInFinishedRun(c, s, k);
      } else if now >= s.hard {
        ClaimPastHardDeadline(c, s, k);
      } else if now >= PhaseDeadline(s, k) {
        MissedPhaseBooks(c, s, k);
        var t := MissedPhase(s, k);
        FailedInActiveRun(c, s, t, OnFailure(t, k, PhaseDeadlineExceeded).value, k, PhaseDeadlineExceeded,
                          StepPhaseDeadline, 0);
      } else {
        ClaimLeaseKeeps(c, s, k, worker, now);
      }
    }
  }

  lemma AbandonKeeps(c: Config, s: Run, k: StepKey, no: nat, owner: Worker, now: Time)
    requires Inv(c, s) && Accepts(s, k, no, owner)
    ensures var t := Abandon(s, k, no, now);
            && Books(c, Log(t, StepCancelled, k, no)) && Rows(t) && Locals(t)
            && t.steps[k].status == Cancelled
            && (RunTerminal(s.status) ==> Inv(c, Log(t, StepCancelled, k, no)))
  {
    hide Graph, Live, Accounts, History, AttemptsOk;
    AcceptedIsNewest(s, k, no, owner);
    var st := s.steps[k];
    assert StepOk(k, st, s.hard);
    EndedOk(k, st, s.hard, now, s.clock);
    var t := Abandon(s, k, no, now);
    LoggedReplace(c, s, t, k, t.steps[k], StepCancelled, no);
    if RunTerminal(s.status) {
      EndInFinishedRun(c, s, Log(t, StepCancelled, k, no), k, t.steps[k]);
    }
  }

  lemma FinishKeeps(c: Config, s: Run, k: StepKey, no: nat, owner: Worker, out: Artifact, cost: Charge, now: Time)
    requires Inv(c, s) && Accepts(s, k, no, owner) && Fits(k, out)
    ensures var t := Finish(s, k, no, out, cost, now);
            && Books(c, Log(t, StepSucceeded, k, no)) && Rows(t) && Locals(t)
            && Succ(t.steps, k) && JustEnded(s.steps, t.steps, k)
  {
    hide Graph, Live, Accounts, History, AttemptsOk;
    AcceptedIsNewest(s, k, no, owner);
    var st := s.steps[k];
    assert StepOk(k, st, s.hard);
    var full := Charged(cost, Elapsed(s, k, no, now));
    FinishedOk(k, st, s.hard, s.clock, out, full);
    var t := Finish(s, k, no, out, cost, now);
    assert StepCost(st) == NoUsage;
    LoggedReplace(c, s, t, k, t.steps[k], StepSucceeded, no);
  }

  lemma RunningStepRunningRun(c: Config, s: Run, k: StepKey)
    requires Inv(c, s) && k in s.steps && s.steps[k].status == Running && !RunTerminal(s.status)
    ensures s.status == RunRunning
  {
  }

  lemma SucceededRunOk(s: Run, s1: Run, s2: Run, k: StepKey, out: Artifact)
    requires RunOk(s) && s.status == RunRunning && s1.status == RunRunning && s1.outcome == s.outcome
    requires s1.soft == s.soft && s1.hard == s.hard && s1.reserve == s.reserve
    requires Succ(s1.steps, k) && Grown(s1, s2) && OnSuccess(s1, k, out) == Some(s2)
    ensures RunOk(s2)
  {
    OnSuccessGrows(s1, k, out);
    if k == Synthesize {
      assert Succ(s2.steps, Synthesize);
    }
  }

  lemma SucceedKeeps(c: Config, s: Run, k: StepKey, no: nat, owner: Worker, out: Artifact, cost: Charge, now: Time)
    requires Inv(c, s)
    ensures Inv(c, Succeed(s, k, no, owner, out, cost, now))
  {
    hide Graph, Live, Accounts, History, AttemptsOk, OnSuccess, Grown, Rows, Locals;
    if Accepts(s, k, no, owner) {
      if RunTerminal(s.status) {
        AbandonKeeps(c, s, k, no, owner, now);
      } else if OnSuccess(Finish(s, k, no, out, cost, now), k, out).Some? {
        var s1 := Finish(s, k, no, out, cost, now);
        var s2 := OnSuccess(s1, k, out).value;
        RaisesOnWrongShape(s1, k, out);
        FinishKeeps(c, s, k, no, owner, out, cost, now);
        RunningStepRunningRun(c, s, k);
        OnSuccessGrows(s1, k, out);
        GrownLoggedBooks(c, s1, s2, StepSucceeded, k, no);
        OnSuccessHealthy(s1, s.steps, k, out);
        SucceededRunOk(s, s1, s2, k, out);
      }
    }
  }

  lemma RaisesOnWrongShape(s: Run, k: StepKey, out: Artifact)
    ensures OnSuccess(s, k, out).Some? ==> Fits(k, out)
  {
  }

  lemma RetryKeeps(c: Config, s: Run, k: StepKey, no: nat, owner: Worker, error: StepError, now: Time)
    requires Inv(c, s) && Accepts(s, k, no, owner) && !RunTerminal(s.status)
    requires 1 <= no && MayRetry(c, s, k, no, error, now)
    ensures Inv(c, Log(RetryLater(c, s, k, no, now), StepRetryScheduled, k, no))
  {
    hide Graph, Live, Accounts, History, AttemptsOk;
    AcceptedIsNewest(s, k, no, owner);
    var st := s.steps[k];
    assert StepOk(k, st, s.hard);
    EndedOk(k, st, s.hard, now, s.clock);
    RunningStepRunningRun(c, s, k);
    var t := RetryLater(c, s, k, no, now);
    LoggedReplace(c, s, t, k, t.steps[k], StepRetryScheduled, no);
    Rearranged(c, s, Log(t, StepRetryScheduled, k, no), k, t.steps[k]);
  }

  lemma FailStepKeeps(c: Config, s: Run, k: StepKey, no: nat, owner: Worker, now: Time)
    requires Inv(c, s) && Accepts(s, k, no, owner)
    ensures var t := FailStep(s, k, no, now);
            && Books(c, Log(t, StepFailed, k, no)) && Rows(t) && Locals(t)
            && t.steps[k].status == Failed
  {
    hide Graph, Live, Accounts, History, AttemptsOk;
    AcceptedIsNewest(s, k, no, owner);
    var st := s.steps[k];
    assert StepOk(k, st, s.hard);
    EndedOk(k, st, s.hard, now, s.clock);
    var t := FailStep(s, k, no, now);
    LoggedReplace(c, s, t, k, t.steps[k], StepFailed, no);
  }

  lemma FailKeeps(c: Config, s: Run, k: StepKey, no: nat, owner: Worker, error: StepError, now: Time)
    requires Inv(c, s)
    ensures Inv(c, Fail(c, s, k, no, owner, error, now))
  {
    hide Graph, Live, Accounts, History, AttemptsOk, OnFailure, Rows;
    if Accepts(s, k, no, owner) {
      AcceptedIsNewest(s, k, no, owner);
      if RunTerminal(s.status) {
        AbandonKeeps(c, s, k, no, owner, now);
        HookStatus(Abandon(s, k, no, now), k, error.code);
      } else if error.cancelled {
        RunningStepRunningRun(c, s, k);
        AbandonKeeps(c, s, k, no, owner, now);
        var s1 := Abandon(s, k, no, now);
        FailureNeverRaises(c, s, s1, k, error.code);
        FailedInActiveRun(c, s, s1, OnFailure(s1, k, error.code).value, k, error.code, StepCancelled, no);
      } else if MayRetry(c, s, k, no, error, now) {
        RetryKeeps(c, s, k, no, owner, error, now);
      } else {
        RunningStepRunningRun(c, s, k);
        FailStepKeeps(c, s, k, no, owner, now);
        var s1 := FailStep(s, k, no, now);
        FailureNeverRaises(c, s, s1, k, error.code);
        FailedInActiveRun(c, s, s1, OnFailure(s1, k, error.code).value, k, error.code, StepFailed, no);
      }
    }
  }

  lemma CancelKeeps(c: Config, s: Run)
    requires Inv(c, s)
    ensures Inv(c, CancelRun(s))
  {
    hide Graph, Live;
    var t := CancelRun(s);
    if t != s {
      forall k ensures HistoryOk(c, t, k) {
        assert HistoryOk(c, s, k);
        assert t.events[..|t.events| - 1] == s.events;
      }
    }
  }

  lemma OtherwiseKeeps(c: Config, s: Run, a: Action)
    requires Inv(c, s) && (a.Tick? || a.DoPublish?)
    ensures Inv(c, Next(c, s, a))
  {
    hide Graph, Live;
    forall k ensures HistoryOk(c, Next(c, s, a), k) {
      assert HistoryOk(c, s, k);
    }
  }

  lemma NextKeeps(c: Config, s: Run, a: Action)
    requires Inv(c, s)
    ensures Inv(c, Next(c, s, a))
  {
    hide Inv, Claim, Succeed, Fail, Renew, MakeReady, MarkDispatched, CancelRun;
    match a
    case Tick(_) => OtherwiseKeeps(c, s, a);
    case DoClaim(k, w, age) => ClaimKeeps(c, s, k, w, s.clock - age);
    case DoSucceed(k, no, w, out, cost, age) => SucceedKeeps(c, s, k, no, w, out, cost, s.clock - age);
    case DoFail(k, no, w, e, age) => FailKeeps(c, s, k, no, w, e, s.clock - age);
    case DoRenew(k, no, w, age) => RenewKeeps(c, s, k, no, w, s.clock - age);
    case DoMakeReady(k, seen, age) => MakeReadyKeeps(c, s, k, seen, s.clock - age);
    case DoMarkDispatched(k, age) => MarkDispatchedKeeps(c, s, k, s.clock - age);
    case DoPublish(_) => OtherwiseKeeps(c, s, a);
    case DoCancel => CancelKeeps(c, s);
  }

  lemma SubmittedOk(c: Config, m: Submission)
    requires m.Valid()
    ensures Inv(c, Submitted(m))
  {
    var s := Submitted(m);
    hide CountEvents, TotalCost;
    SubmittedAccounts(s);
    SubmittedHistory(c, s);
    assert Barrier(s.steps, Route);
  }

  lemma SubmittedAccounts(s: Run)
    requires s.order == [Route] && Route in s.steps && s.steps[Route].attempts == [] && s.usage == NoUsage
    ensures Accounts(s)
  {
    OneRowCost(s.steps, Route);
  }

  lemma OneRowCost(m: StepMap, k: StepKey)
    requires k in m
    ensures TotalCost(m, [k]) == StepCost(m[k])
  {
    assert [k][..0] == [];
    TotalCostLast(m, [k]);
    assert TotalCost(m, []) == NoUsage;
    hide StepCost, TotalCost;
    NothingMore(StepCost(m[k]));
  }

  lemma NothingMore(u: Usage)
    ensures AddUsage(NoUsage, u) == u
  {
  }

  lemma SubmittedHistory(c: Config, s: Run)
    requires s.events == [Event(RunWasQueued, Route, 0)] && s.steps.Keys == {Route}
    requires s.steps[Route].status == Ready && s.steps[Route].attempts == []
    ensures History(c, s)
  {
    forall k ensures HistoryOk(c, s, k) {
      assert s.events[..0] == [];
    }
  }

  lemma {:induction false} ExecKeeps(c: Config, s: Run, trace: seq<Action>)
    requires Inv(c, s)
    ensures Inv(c, Exec(c, s, trace))
  {
    hide Inv;
    if trace != [] {
      ExecKeeps(c, s, trace[..|trace| - 1]);
      NextKeeps(c, Exec(c, s, trace[..|trace| - 1]), trace[|trace| - 1]);
    }
  }

  /** Every state of every run, under every interleaving, satisfies the invariant. */
  lemma ReachableOk(c: Config, s: Run)
    requires Reachable(c, s)
    ensures Inv(c, s)
  {
    hide Inv, Exec, Submitted;
    var m: Submission, trace: seq<Action> :| m.Valid() && s == Exec(c, Submitted(m), trace);
    SubmittedOk(c, m);
    ExecKeeps(c, Submitted(m), trace);
  }
}
