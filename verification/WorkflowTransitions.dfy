/** What each unit of work leaves behind in a reachable run: the attempt it opens, ends or extends,
    the charge it books, and the status of the step and of the run. */
module WorkflowTransitions {
  import opened Wrappers
  import opened WorkflowModel
  import opened WorkflowInvariant
  import opened WorkflowGraph
  import opened WorkflowPreservation
  import opened WorkflowSafety

  /** No row but `k` differs, and no row is added. */
  predicate OnlyRow(s: Run, t: Run, k: StepKey) {
    && t.steps.Keys == s.steps.Keys && t.order == s.order && t.unpublished == s.unpublished
    && (forall j :: j in s.steps && j != k ==> t.steps[j] == s.steps[j])
  }

  /** Rows may be added, but of those there already only `k` differs. */
  predicate OnlyRowOfOld(s: Run, t: Run, k: StepKey) {
    forall j :: j in s.steps && j != k ==> j in t.steps && t.steps[j] == s.steps[j]
  }

  predicate EventAdded(s: Run, t: Run, kind: EventKind, k: StepKey, no: nat) {
    t.events == s.events + [Event(kind, k, no)]
  }

  // ---------------------------------------------------------------- claims

  /** Synthesize may run until the hard deadline; every other step must leave it the reserve. */
  function OwnDeadline(s: Run, k: StepKey): Time {
    match k
    case Synthesize => s.hard
    case _ => s.soft - s.reserve
  }

  /** The next attempt of the claimed step is open under a lease that never outlasts the step's own
      deadline, the run is running, and nothing else has changed. */
  predicate Opened(c: Config, s: Run, t: Run, a: Action)
    requires a.DoClaim? && a.key in s.steps
  {
    var st, now, deadline := s.steps[a.key], s.clock - a.age, OwnDeadline(s, a.key);
    && OnlyRow(s, t, a.key) && EventAdded(s, t, StepStarted, a.key, |st.attempts| + 1)
    && t.status == RunRunning && t.usage == s.usage && t.outcome == s.outcome
    && var st' := t.steps[a.key];
       && st'.status == Running && st'.input == st.input && st'.output == None
       && |st'.attempts| == |st.attempts| + 1 && st'.attempts[..|st.attempts|] == st.attempts
       && var attempt := st'.attempts[|st.attempts|];
          && attempt.no == |st.attempts| + 1 && attempt.owner == a.worker && attempt.end == Open
          && attempt.startedAt == now && attempt.deadline == deadline
          && now < attempt.leasedUntil <= deadline
          && (attempt.leasedUntil == deadline || attempt.leasedUntil == now + c.leaseSeconds)
  }

  /** In time, the claim of a READY step opens its next attempt. */
  lemma ClaimOpens(c: Config, s: Run, a: Action)
    requires a.DoClaim? && a.key in s.steps && s.steps[a.key].status == Ready
    requires !RunTerminal(s.status) && s.clock - a.age < s.hard && s.clock - a.age < OwnDeadline(s, a.key)
    requires Inv(c, s)
    ensures Opened(c, s, Next(c, s, a), a)
  {
    hide Graph, Live, Accounts, History, Rows, MaxNo;
    assert StepOk(a.key, s.steps[a.key], s.hard);
    MaxNoIs(s.steps[a.key].attempts);
    NoStepWaits(c, s);
  }

  lemma NoStepWaits(c: Config, s: Run)
    requires Inv(c, s)
    ensures s.status != RunWaiting
  {
  }

  /** A READY step of a run that has ended is cancelled when it is claimed. */
  lemma ClaimInEndedRun(c: Config, s: Run, a: Action)
    requires a.DoClaim? && a.key in s.steps && s.steps[a.key].status == Ready && RunTerminal(s.status)
    ensures var t := Next(c, s, a);
      && OnlyRow(s, t, a.key) && t.status == s.status && t.usage == s.usage && t.outcome == s.outcome
      && t.steps[a.key].status == Cancelled && t.steps[a.key].attempts == s.steps[a.key].attempts
  {
  }

  /** Past the hard deadline the claim fails the step and the run, and schedules nothing. */
  lemma ClaimPastHard(c: Config, s: Run, a: Action)
    requires a.DoClaim? && a.key in s.steps && s.steps[a.key].status == Ready && !RunTerminal(s.status)
    requires s.clock - a.age >= s.hard
    ensures var t := Next(c, s, a);
      && OnlyRow(s, t, a.key) && EventAdded(s, t, StepDeadline, a.key, 0)
      && t.status == RunFailed && t.usage == s.usage && t.outcome == s.outcome
      && t.steps[a.key].status == Failed && t.steps[a.key].attempts == s.steps[a.key].attempts
  {
  }

  /** Past its own deadline but before the run's, the step fails without an attempt; the run goes on
      without it unless the step was route or plan. */
  lemma ClaimPastPhase(c: Config, s: Run, a: Action)
    requires a.DoClaim? && a.key in s.steps && s.steps[a.key].status == Ready && !RunTerminal(s.status)
    requires OwnDeadline(s, a.key) <= s.clock - a.age < s.hard
    requires Inv(c, s)
    ensures var t := Next(c, s, a);
      && OnlyRowOfOld(s, t, a.key) && EventAdded(s, t, StepPhaseDeadline, a.key, 0)
      && a.key in t.steps && t.steps[a.key].status == Failed && t.steps[a.key].attempts == s.steps[a.key].attempts
      && t.status == (if a.key.Route? || a.key.Plan? then RunFailed else RunRunning)
      && t.usage == s.usage && t.outcome == s.outcome
  {
    hide Books, Inv, OnFailure, Rows, Locals;
    MissedPhaseBooks(c, s, a.key);
    FailureRunStatus(MissedPhase(s, a.key), a.key, PhaseDeadlineExceeded);
    OnFailureGrows(MissedPhase(s, a.key), a.key, PhaseDeadlineExceeded);
  }

  lemma FailureRunStatus(s: Run, k: StepKey, code: nat)
    ensures OnFailure(s, k, code).Some? ==>
      (OnFailure(s, k, code).value.status ==
       if !RunTerminal(s.status) && (k.Route? || k.Plan? || k.Synthesize?) then RunFailed else s.status)
  {
    hide MaybeSelect, MaybeVerify, MaybeSynthesize, Grown;
    MaybeSelectGrows(s);
    MaybeVerifyGrows(s, k, {Reported(code)});
    MaybeSynthesizeGrows(s, {Reported(code)});
  }

  // ---------------------------------------------------------------- success

  function InPhase(u: Seconds, p: Phase): nat {
    match p
    case RoutePlanPhase => u.routePlan
    case DiscoveryPhase => u.discovery
    case FetchExtractPhase => u.fetchExtract
    case VerifyPhase => u.verify
    case SynthesizePhase => u.synthesize
  }

  /** `u` plus what the handler counted, and the elapsed time in the one phase it names. */
  ghost predicate Booked(u: Usage, v: Usage, cost: Charge, elapsed: nat) {
    && v.queries == u.queries + cost.queries && v.providers == u.providers + cost.providers
    && v.fetches == u.fetches + cost.fetches
    && forall p :: InPhase(v.seconds, p) == InPhase(u.seconds, p) + (if p == cost.phase then elapsed else 0)
  }

  lemma ChargedIsBooked(u: Usage, cost: Charge, elapsed: nat)
    ensures Booked(u, AddUsage(u, Charged(cost, elapsed)), cost, elapsed)
  {
  }

  /** Only the newest attempt of the row ends, in this way. */
  predicate NewestEnded(st: Step, st': Step, end: AttemptEnd) {
    && |st.attempts| > 0 && |st'.attempts| == |st.attempts|
    && st'.attempts[..|st.attempts| - 1] == st.attempts[..|st.attempts| - 1]
    && st'.attempts[|st.attempts| - 1] == st.attempts[|st.attempts| - 1].(end := end)
  }

  lemma EndsNewest(c: Config, s: Run, k: StepKey, no: nat, w: Worker, end: AttemptEnd, st': Step)
    requires Locals(s) && Accepts(s, k, no, w)
    requires st'.attempts == EndAttempt(s.steps[k].attempts, no, end)
    ensures NewestEnded(s.steps[k], st', end)
    ensures no == |s.steps[k].attempts| && AttemptNo(s.steps[k].attempts, no) == Some(s.steps[k].attempts[no - 1])
  {
    AcceptedIsNewest(s, k, no, w);
    assert StepOk(k, s.steps[k], s.hard);
    hide Locals, MaxNo;
    EndAttemptOk(s.steps[k].attempts, s.hard, end);
  }

  /** The accepted report of a well-shaped output, in an active run; an answer must also be
      consistent. */
  predicate Stores(s: Run, a: Action) {
    && a.DoSucceed? && Accepts(s, a.key, a.no, a.worker) && !RunTerminal(s.status) && Fits(a.key, a.output)
    && (a.key == Synthesize ==>
          (a.output.quality == Complete <==> a.output.reason == FactsCovered) && a.output.reason != UserCancelled)
  }

  /** The newest attempt is done, its output is the row's, and the time since it started is booked. */
  ghost predicate Stored(s: Run, t: Run, a: Action)
    requires a.DoSucceed? && a.key in s.steps
  {
    var st := s.steps[a.key];
    && OnlyRowOfOld(s, t, a.key)
    && a.key in t.steps && t.steps[a.key].status == Succeeded && t.steps[a.key].output == Some(a.output)
    && 1 <= a.no == |st.attempts|
    && var elapsed := Max(0, s.clock - a.age - st.attempts[a.no - 1].startedAt);
       && Booked(s.usage, t.usage, a.cost, elapsed)
       && exists cost :: NewestEnded(st, t.steps[a.key], Done(a.output, cost)) && Booked(NoUsage, cost, a.cost, elapsed)
  }

  /** A success ends the run, with the reported outcome, exactly when the step is synthesize. */
  predicate EndsWithAnswer(s: Run, t: Run, a: Action)
    requires a.DoSucceed? && (a.key == Synthesize ==> a.output.Answer?)
  {
    if a.key == Synthesize then t.status == RunSucceeded && t.outcome == Some((a.output.quality, a.output.reason))
    else t.status == s.status && t.outcome == s.outcome
  }

  /** What a stored success leaves behind. */
  lemma SuccessIsStored(c: Config, s: Run, a: Action)
    requires a.DoSucceed? && a.key in s.steps && (a.key == Synthesize ==> a.output.Answer?) && Stores(s, a)
    requires Inv(c, s)
    ensures Stored(s, Next(c, s, a), a) && EndsWithAnswer(s, Next(c, s, a), a)
    ensures EventAdded(s, Next(c, s, a), StepSucceeded, a.key, a.no)
  {
    var s1 := Finish(s, a.key, a.no, a.output, a.cost, s.clock - a.age);
    RowsAreSound(c, s);
    FinishFacts(c, s, a);
    StoredHook(c, s, a);
    hide OnSuccess, Inv, Accepts, Stored, Next, Charged, Elapsed, EndAttempt, AddUsage, Fits;
    OnSuccessGrows(s1, a.key, a.output);
    StoredStays(s, s1, OnSuccess(s1, a.key, a.output).value, a);
  }

  lemma StoredStays(s: Run, s1: Run, t: Run, a: Action)
    requires a.DoSucceed? && a.key in s.steps && Stored(s, s1, a) && Grown(s1, t)
    ensures Stored(s, Log(t, StepSucceeded, a.key, a.no), a)
  {
    hide NewestEnded, Booked;
  }

  lemma FinishFacts(c: Config, s: Run, a: Action)
    requires Stores(s, a)
    requires Locals(s)
    ensures Stored(s, Finish(s, a.key, a.no, a.output, a.cost, s.clock - a.age), a)
  {
    hide Locals, Booked, NewestEnded, IsCurrent, AddUsage, Charged, EndAttempt, Stored, Fits;
    var st, now := s.steps[a.key], s.clock - a.age;
    NewestReports(s, a);
    var elapsed := Max(0, now - st.attempts[a.no - 1].startedAt);
    var cost := Charged(a.cost, elapsed);
    var s1 := Finish(s, a.key, a.no, a.output, a.cost, now);
    ChargedIsBooked(s.usage, a.cost, elapsed);
    ChargedIsBooked(NoUsage, a.cost, elapsed);
    NothingPlus(cost);
    EndsNewest(c, s, a.key, a.no, a.worker, Done(a.output, cost), s1.steps[a.key]);
    StoredIs(s, s1, a, elapsed, cost);
  }

  lemma StoredIs(s: Run, t: Run, a: Action, elapsed: nat, cost: Usage)
    requires a.DoSucceed? && a.key in s.steps && OnlyRowOfOld(s, t, a.key)
    requires a.key in t.steps && t.steps[a.key].status == Succeeded && t.steps[a.key].output == Some(a.output)
    requires 1 <= a.no == |s.steps[a.key].attempts|
    requires elapsed == Max(0, s.clock - a.age - s.steps[a.key].attempts[a.no - 1].startedAt)
    requires Booked(s.usage, t.usage, a.cost, elapsed)
    requires NewestEnded(s.steps[a.key], t.steps[a.key], Done(a.output, cost)) && Booked(NoUsage, cost, a.cost, elapsed)
    ensures Stored(s, t, a)
  {
    hide Booked, NewestEnded, OnlyRowOfOld;
  }

  lemma NewestReports(s: Run, a: Action)
    requires a.DoSucceed? && Accepts(s, a.key, a.no, a.worker) && Locals(s)
    ensures 1 <= a.no == |s.steps[a.key].attempts|
    ensures AttemptNo(s.steps[a.key].attempts, a.no) == Some(s.steps[a.key].attempts[a.no - 1])
  {
    hide Locals, IsCurrent;
    AcceptedIsNewest(s, a.key, a.no, a.worker);
  }

  lemma NothingPlus(u: Usage)
    ensures AddUsage(NoUsage, u) == u
  {
  }

  lemma StoredHook(c: Config, s: Run, a: Action)
    requires Stores(s, a)
    requires Inv(c, s)
    ensures var h := OnSuccess(Finish(s, a.key, a.no, a.output, a.cost, s.clock - a.age), a.key, a.output);
      && h.Some? && Next(c, s, a) == Log(h.value, StepSucceeded, a.key, a.no)
      && (a.key == Synthesize ==> h.value.status == RunSucceeded && h.value.outcome == Some((a.output.quality, a.output.reason)))
  {
    hide Inv, Rows, Locals, IsCurrent, MaybeSelect, MaybeVerify, MaybeSynthesize, AddDiscoveries, AddFetches, Healthy;
    hide Elapsed, Charged;
    var s1 := Finish(s, a.key, a.no, a.output, a.cost, s.clock - a.age);
    StoredHealthy(c, s, a);
  }

  lemma StoredHealthy(c: Config, s: Run, a: Action)
    requires Stores(s, a)
    requires Inv(c, s)
    ensures var s1 := Finish(s, a.key, a.no, a.output, a.cost, s.clock - a.age);
      OnSuccess(s1, a.key, a.output).Some? && s1.status == RunRunning
  {
    hide Healthy, OnSuccess, Graph, Live, Books, History, Accounts, IsCurrent, Rows, Locals, JustEnded;
    hide Charged, Elapsed, EndAttempt, AddUsage;
    FinishKeeps(c, s, a.key, a.no, a.worker, a.output, a.cost, s.clock - a.age);
    RunningStepRunningRun(c, s, a.key);
    OnSuccessHealthy(Finish(s, a.key, a.no, a.output, a.cost, s.clock - a.age), s.steps, a.key, a.output);
  }

  /** An output of the wrong shape, or an inconsistent answer, stores nothing at all. */
  lemma UnfitOutputIsRefused(c: Config, s: Run, a: Action)
    requires a.DoSucceed? && !Stores(s, a) && !RunTerminal(s.status)
    ensures Next(c, s, a) == s
  {
    hide IsCurrent, MaybeSelect, MaybeVerify, MaybeSynthesize, AddDiscoveries, AddFetches, Elapsed, Charged;
  }

  // ---------------------------------------------------------------- failure

  /** The newest attempt ended in error at `now`, nothing is booked, and no output is stored. */
  predicate EndedInError(s: Run, t: Run, k: StepKey, no: nat, now: Time)
    requires k in s.steps
  {
    && OnlyRowOfOld(s, t, k) && t.usage == s.usage && t.outcome == s.outcome
    && k in t.steps && t.steps[k].output == None
    && no == |s.steps[k].attempts| && NewestEnded(s.steps[k], t.steps[k], Errored(now))
  }

  /** The report has only cancelled the step. */
  predicate OnlyCancelled(s: Run, t: Run, k: StepKey, no: nat, now: Time)
    requires k in s.steps
  {
    && EndedInError(s, t, k, no, now) && OnlyRow(s, t, k) && t.status == s.status
    && t.steps[k].status == Cancelled && EventAdded(s, t, StepCancelled, k, no)
  }

  /** Whatever was reported, a run that has ended only cancels the step. */
  lemma ReportInEndedRun(c: Config, s: Run, a: Action)
    requires (a.DoSucceed? || a.DoFail?) && Accepts(s, a.key, a.no, a.worker) && RunTerminal(s.status)
    requires Locals(s)
    ensures OnlyCancelled(s, Next(c, s, a), a.key, a.no, s.clock - a.age)
  {
    hide Locals, IsCurrent, EndAttempt, EndedInError, Next;
    EndedRunUnfolds(c, s, a);
    AbandonedIs(c, s, a.key, a.no, a.worker, s.clock - a.age);
    ErrorIsLogged(s, Abandon(s, a.key, a.no, s.clock - a.age), a.key, a.no, s.clock - a.age, StepCancelled);
  }

  lemma ErrorIsLogged(s: Run, t: Run, k: StepKey, no: nat, now: Time, kind: EventKind)
    requires k in s.steps && EndedInError(s, t, k, no, now)
    ensures EndedInError(s, Log(t, kind, k, no), k, no, now)
  {
    hide NewestEnded;
  }

  lemma EndedRunUnfolds(c: Config, s: Run, a: Action)
    requires (a.DoSucceed? || a.DoFail?) && Accepts(s, a.key, a.no, a.worker) && RunTerminal(s.status)
    ensures Next(c, s, a) == Log(Abandon(s, a.key, a.no, s.clock - a.age), StepCancelled, a.key, a.no)
  {
    hide IsCurrent, EndAttempt, RetryDelay, OnSuccess, OnFailure;
    if a.DoFail? {
      HookStatus(Abandon(s, a.key, a.no, s.clock - a.age), a.key, a.error.code);
    }
  }

  lemma AbandonedIs(c: Config, s: Run, k: StepKey, no: nat, w: Worker, now: Time)
    requires Accepts(s, k, no, w) && Locals(s)
    ensures EndedInError(s, Abandon(s, k, no, now), k, no, now)
  {
    assert StepOk(k, s.steps[k], s.hard);
    hide Locals, IsCurrent, EndAttempt, NewestEnded, StepOk;
    NoOutputYet(k, s.steps[k], s.hard);
    EndsNewest(c, s, k, no, w, Errored(now), Abandon(s, k, no, now).steps[k]);
  }

  lemma FailedIs(c: Config, s: Run, k: StepKey, no: nat, w: Worker, now: Time)
    requires Accepts(s, k, no, w) && Locals(s)
    ensures EndedInError(s, FailStep(s, k, no, now), k, no, now)
  {
    assert StepOk(k, s.steps[k], s.hard);
    hide Locals, IsCurrent, EndAttempt, NewestEnded, StepOk;
    NoOutputYet(k, s.steps[k], s.hard);
    EndsNewest(c, s, k, no, w, Errored(now), FailStep(s, k, no, now).steps[k]);
  }

  lemma RetriedIs(c: Config, s: Run, k: StepKey, no: nat, w: Worker, now: Time)
    requires Accepts(s, k, no, w) && Locals(s) && 1 <= no
    ensures EndedInError(s, RetryLater(c, s, k, no, now), k, no, now)
  {
    assert StepOk(k, s.steps[k], s.hard);
    hide Locals, IsCurrent, EndAttempt, NewestEnded, StepOk, RetryDelay;
    NoOutputYet(k, s.steps[k], s.hard);
    EndsNewest(c, s, k, no, w, Errored(now), RetryLater(c, s, k, no, now).steps[k]);
  }

  lemma NoOutputYet(k: StepKey, st: Step, hard: Time)
    requires StepOk(k, st, hard) && st.status == Running
    ensures st.output == None
  {
  }

  /** The wait before the next attempt: the base after the first, then twice the last, up to the most
      allowed. */
  lemma RetryDelayDoubles(c: Config, no: nat)
    requires 1 <= no
    ensures RetryDelay(c, 1) == c.retryBase
    ensures RetryDelay(c, no + 1) == Min(c.retryMax, 2 * RetryDelay(c, no))
  {
    var p := Pow2(no - 1);
    assert Pow2(no) == 2 * p;
    assert c.retryBase * (2 * p) == 2 * (c.retryBase * p);
  }

  /** Another attempt is worth it: the error may pass, attempts are left, and the wait ends before the
      run's deadline. Fetch has its own, smaller, number of attempts. */
  predicate WorthRetrying(c: Config, s: Run, a: Action)
    requires a.DoFail? && 1 <= a.no
  {
    && a.error.retryable && !a.error.cancelled && !RunTerminal(s.status)
    && a.no < (if a.key.Fetch? then c.fetchMaxAttempts else c.maxAttempts)
    && s.clock - a.age + RetryDelay(c, a.no) < s.hard
  }

  /** The step waits exactly the delay of its attempt number, and nothing else happens. */
  predicate Waits(c: Config, s: Run, t: Run, k: StepKey, no: nat, now: Time)
    requires k in s.steps && 1 <= no
  {
    && EndedInError(s, t, k, no, now) && OnlyRow(s, t, k) && t.status == s.status
    && t.steps[k].status == RetryWait && t.steps[k].retryAt == Some(now + RetryDelay(c, no))
    && EventAdded(s, t, StepRetryScheduled, k, no)
  }

  lemma FailureIsRetried(c: Config, s: Run, a: Action)
    requires a.DoFail? && Accepts(s, a.key, a.no, a.worker) && WorthRetrying(c, s, a)
    requires Locals(s)
    ensures Waits(c, s, Next(c, s, a), a.key, a.no, s.clock - a.age)
  {
    hide Locals, IsCurrent, EndAttempt, EndedInError, RetryDelay, Next, WorthRetrying;
    AcceptedNumber(s, a.key, a.no, a.worker);
    RetryUnfolds(c, s, a);
    RetriedIs(c, s, a.key, a.no, a.worker, s.clock - a.age);
    ErrorIsLogged(s, RetryLater(c, s, a.key, a.no, s.clock - a.age), a.key, a.no, s.clock - a.age, StepRetryScheduled);
  }

  lemma RetryUnfolds(c: Config, s: Run, a: Action)
    requires a.DoFail? && Accepts(s, a.key, a.no, a.worker) && WorthRetrying(c, s, a)
    ensures Next(c, s, a) == Log(RetryLater(c, s, a.key, a.no, s.clock - a.age), StepRetryScheduled, a.key, a.no)
  {
    hide IsCurrent, EndAttempt, RetryDelay, OnFailure, RetryLater, Abandon, FailStep;
  }

  /** The row after its last attempt, before anything is scheduled. */
  function EndedRow(s: Run, a: Action): Run
    requires a.DoFail? && a.key in s.steps
  {
    if a.error.cancelled then Abandon(s, a.key, a.no, s.clock - a.age) else FailStep(s, a.key, a.no, s.clock - a.age)
  }

  /** The step has ended, and with it the run if the step was route, plan or synthesize. */
  predicate FinallyEnded(s: Run, t: Run, a: Action)
    requires a.DoFail? && a.key in s.steps
  {
    && EndedInError(s, t, a.key, a.no, s.clock - a.age)
    && t.steps[a.key].status == (if a.error.cancelled then StepStatus.Cancelled else Failed)
    && t.status == (if a.key.Route? || a.key.Plan? || a.key.Synthesize? then RunFailed else s.status)
    && EventAdded(s, t, if a.error.cancelled then StepCancelled else StepFailed, a.key, a.no)
  }

  /** A failure that is not worth a retry is final. */
  lemma FailureIsFinal(c: Config, s: Run, a: Action)
    requires a.DoFail? && Accepts(s, a.key, a.no, a.worker) && !RunTerminal(s.status) && !WorthRetrying(c, s, a)
    requires Inv(c, s)
    ensures FinallyEnded(s, Next(c, s, a), a)
  {
    hide EndedRow, OnFailure, Inv, Next, EndedInError, RetryDelay, FinallyEnded, Locals, IsCurrent, Log, WorthRetrying;
    RowsAreSound(c, s);
    EndedRowErrs(c, s, a);
    HookRuns(c, s, a);
    FailureUnfolds(c, s, a);
    EndedOutcome(s, a);
  }

  lemma EndedRowErrs(c: Config, s: Run, a: Action)
    requires a.DoFail? && a.key in s.steps && Accepts(s, a.key, a.no, a.worker)
    requires Locals(s)
    ensures EndedInError(s, EndedRow(s, a), a.key, a.no, s.clock - a.age)
  {
    hide EndedInError, Locals, IsCurrent, Abandon, FailStep;
    AbandonedIs(c, s, a.key, a.no, a.worker, s.clock - a.age);
    FailedIs(c, s, a.key, a.no, a.worker, s.clock - a.age);
  }

  lemma RowsAreSound(c: Config, s: Run)
    requires Inv(c, s)
    ensures Locals(s)
  {
  }

  lemma EndedOutcome(s: Run, a: Action)
    requires a.DoFail? && a.key in s.steps && !RunTerminal(s.status)
    requires EndedInError(s, EndedRow(s, a), a.key, a.no, s.clock - a.age)
    requires OnFailure(EndedRow(s, a), a.key, a.error.code).Some?
    ensures FinallyEnded(s, Log(OnFailure(EndedRow(s, a), a.key, a.error.code).value,
                                if a.error.cancelled then StepCancelled else StepFailed, a.key, a.no), a)
  {
    EndedRowIs(s, a);
    hide EndedRow, OnFailure, NewestEnded;
    var s1 := EndedRow(s, a);
    FailureRunStatus(s1, a.key, a.error.code);
    OnFailureGrows(s1, a.key, a.error.code);
    ErrorStays(s, s1, OnFailure(s1, a.key, a.error.code).value, a.key, a.no, s.clock - a.age);
  }

  lemma EndedRowIs(s: Run, a: Action)
    requires a.DoFail? && a.key in s.steps
    ensures var s1 := EndedRow(s, a);
      && s1 == s.(steps := s.steps[a.key := s1.steps[a.key]])
      && s1.steps[a.key].status == (if a.error.cancelled then StepStatus.Cancelled else Failed)
  {
    hide EndAttempt;
  }

  lemma HookRuns(c: Config, s: Run, a: Action)
    requires a.DoFail? && Accepts(s, a.key, a.no, a.worker) && !RunTerminal(s.status)
    requires Inv(c, s)
    ensures OnFailure(EndedRow(s, a), a.key, a.error.code).Some?
  {
    hide Inv, Books, Rows, Locals, IsCurrent, EndAttempt, RetryDelay, OnFailure;
    AbandonKeeps(c, s, a.key, a.no, a.worker, s.clock - a.age);
    FailStepKeeps(c, s, a.key, a.no, a.worker, s.clock - a.age);
    EndedRowIs(s, a);
    FailureNeverRaises(c, s, EndedRow(s, a), a.key, a.error.code);
  }

  lemma FailureUnfolds(c: Config, s: Run, a: Action)
    requires a.DoFail? && Accepts(s, a.key, a.no, a.worker) && !RunTerminal(s.status) && !WorthRetrying(c, s, a)
    ensures var t := OnFailure(EndedRow(s, a), a.key, a.error.code);
      t.Some? ==> Next(c, s, a) == Log(t.value, if a.error.cancelled then StepCancelled else StepFailed, a.key, a.no)
  {
    hide IsCurrent, EndAttempt, RetryDelay, OnFailure;
    AcceptedNumber(s, a.key, a.no, a.worker);
  }

  lemma ErrorStays(s: Run, s1: Run, t: Run, k: StepKey, no: nat, now: Time)
    requires k in s.steps && EndedInError(s, s1, k, no, now) && Grown(s1, t) && t.outcome == s1.outcome
    ensures EndedInError(s, t, k, no, now) && k in s1.steps && t.steps[k] == s1.steps[k] && t.events == s1.events
  {
    hide NewestEnded;
  }

  // ---------------------------------------------------------------- leases and recovery

  /** A heartbeat moves the lease of the open attempt to `leaseExtension` from now, but never past the
      attempt's deadline and never back; a late or idle heartbeat changes nothing. */
  lemma RenewalExtends(c: Config, s: Run, a: Action)
    requires a.DoRenew? && Accepts(s, a.key, a.no, a.worker)
    requires Locals(s)
    ensures 1 <= a.no == |s.steps[a.key].attempts|
    ensures var t, st, now := Next(c, s, a), s.steps[a.key], s.clock - a.age;
      var open := st.attempts[a.no - 1];
      var until := if now + c.leaseExtension < open.deadline then now + c.leaseExtension else open.deadline;
      if now < open.deadline && open.leasedUntil < until
      then t == s.(steps := s.steps[a.key := st.(attempts := st.attempts[a.no - 1 := open.(leasedUntil := until)])])
      else t == s
  {
    AcceptedIsNewest(s, a.key, a.no, a.worker);
    assert StepOk(a.key, s.steps[a.key], s.hard);
    var st := s.steps[a.key];
    hide Locals, IsCurrent, Accepts, MaxNo;
    forall until: Time ensures ExtendLease(st.attempts, a.no, until)
        == st.attempts[a.no - 1 := st.attempts[a.no - 1].(leasedUntil := until)] {
    }
    assert Accepts(s, a.key, a.no, a.worker);
  }

  /** The row the reconciler meant is still as it was seen, and its wait or its lease is over. */
  predicate Recovers(s: Run, k: StepKey, seen: StepStatus, now: Time) {
    && k in s.steps && s.steps[k].status == seen
    && var st := s.steps[k];
       || (seen == RetryWait && st.retryAt.Some? && st.retryAt.value <= now)
       || (seen == Running && |st.attempts| > 0 && st.attempts[|st.attempts| - 1].leasedUntil <= now)
  }

  /** The step is READY, with its expired attempt closed at that time, and nothing else has changed. */
  predicate Recovered(s: Run, t: Run, k: StepKey, seen: StepStatus, now: Time)
    requires k in s.steps
  {
    && OnlyRow(s, t, k) && t.status == s.status && t.usage == s.usage && t.events == s.events
    && t.steps[k].status == Ready && t.steps[k].retryAt == None && t.steps[k].input == s.steps[k].input
    && (if seen == Running then NewestEnded(s.steps[k], t.steps[k], Errored(now))
        else t.steps[k].attempts == s.steps[k].attempts)
  }

  /** A row whose wait or lease is over is recovered; otherwise nothing happens. */
  lemma RecoveryIs(c: Config, s: Run, a: Action)
    requires a.DoMakeReady?
    requires Locals(s)
    ensures var t, now := Next(c, s, a), s.clock - a.age;
      if Recovers(s, a.key, a.seen, now) then Recovered(s, t, a.key, a.seen, now) else t == s
  {
    hide Locals, MakeReady, Recovers, Recovered;
    var now := s.clock - a.age;
    if a.seen == RetryWait {
      RetryRecovers(s, a.key, now);
    } else if a.seen == Running {
      LeaseRecovers(s, a.key, now);
    } else {
      NothingRecovers(s, a.key, a.seen, now);
    }
  }

  lemma RetryRecovers(s: Run, k: StepKey, now: Time)
    requires Locals(s)
    ensures var t := MakeReady(s, k, RetryWait, now);
      if Recovers(s, k, RetryWait, now) then Recovered(s, t, k, RetryWait, now) else t == s
  {
    hide Locals, NewestEnded;
  }

  lemma LeaseRecovers(s: Run, k: StepKey, now: Time)
    requires Locals(s)
    ensures var t := MakeReady(s, k, Running, now);
      if Recovers(s, k, Running, now) then Recovered(s, t, k, Running, now) else t == s
  {
    if k in s.steps && s.steps[k].status == Running {
      assert StepOk(k, s.steps[k], s.hard);
      hide Locals, OpenLease, ExpireAttempts, NewestEnded, Fits;
      OpenLeaseIs(s.steps[k].attempts);
      if Recovers(s, k, Running, now) {
        Expires(k, s.steps[k], s.hard, now);
      }
    }
  }

  lemma NothingRecovers(s: Run, k: StepKey, seen: StepStatus, now: Time)
    requires seen != RetryWait && seen != Running
    ensures !Recovers(s, k, seen, now) && MakeReady(s, k, seen, now) == s
  {
  }

  lemma Expires(k: StepKey, st: Step, hard: Time, now: Time)
    requires StepOk(k, st, hard) && st.status == Running && st.attempts[|st.attempts| - 1].leasedUntil <= now
    ensures NewestEnded(st, st.(attempts := ExpireAttempts(st.attempts, now)), Errored(now))
  {
  }

  /** Marking a READY step as delivered keeps the scan from returning it again before the grace is over. */
  lemma DeliveryPostpones(c: Config, s: Run, a: Action, at: Time)
    requires a.DoMarkDispatched? && a.key in s.steps && s.steps[a.key].status == Ready
    requires at - c.grace < s.clock - a.age
    requires Locals(s)
    ensures !Candidate(c, Next(c, s, a), a.key, at)
    ensures Next(c, s, a) == s.(steps := s.steps[a.key := s.steps[a.key].(updatedAt := s.clock - a.age)])
  {
    assert StepOk(a.key, s.steps[a.key], s.hard);
  }

  /** A cancellation ends an unfinished run and leaves every row for its own report or claim to end. */
  lemma CancellationIs(c: Config, s: Run)
    ensures var t := Next(c, s, DoCancel);
      if s.status == RunSucceeded || s.status == RunFailed || s.status == RunCancelled then t == s
      else t.status == RunCancelled && t.steps == s.steps && t.order == s.order && t.unpublished == s.unpublished
           && t.usage == s.usage && t.outcome == s.outcome
  {
  }
}
