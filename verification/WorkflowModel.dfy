/** The durable workflow of one search run, as a transition system on values.

    A unit of work takes its row locks before it reads, so each is one atomic transition.
    The environment chooses which transition comes next: workers crash (they simply never
    report), deliveries repeat, stale workers report late, the reconciler acts on old
    candidates, users cancel, and the clock moves forward. */
module WorkflowModel {
  import opened Wrappers

  type Time = int
  type Worker = nat

  datatype Mode = Fast | Research

  datatype RunStatus = RunQueued | RunRunning | RunWaiting | RunSucceeded | RunFailed | RunCancelled

  datatype Quality = Complete | Partial

  datatype StopReason =
    | FactsCovered | TimeBudget | InsufficientEvidence | ProviderFailure
    | PolicyBlocked | UserCancelled | InfrastructureFailure

  datatype StepStatus = Ready | Running | RetryWait | Succeeded | Failed | Skipped | Cancelled

  /** A step key carries its step type: the source's keys are "route", "plan",
      "discover:<query>", "select", "fetch:<index>:<hit>", "extract:<index>:<hit>",
      "verify" and "synthesize", and `plan_revision` is always 1. */
  datatype StepKey =
    | Route | Plan | Discover(query: nat) | Select
    | Fetch(index: nat, hit: nat) | Extract(index: nat, hit: nat) | Verify | Synthesize

  datatype StepKind = KRoute | KPlan | KDiscovery | KSelect | KFetch | KExtract | KVerify | KSynthesize

  function Kind(k: StepKey): StepKind {
    match k
    case Route => KRoute
    case Plan => KPlan
    case Discover(_) => KDiscovery
    case Select => KSelect
    case Fetch(_, _) => KFetch
    case Extract(_, _) => KExtract
    case Verify => KVerify
    case Synthesize => KSynthesize
  }

  datatype Fact = Fact(id: nat, required: bool)
  datatype Hit = Hit(id: nat, direct: bool, facts: set<nat>)

  /** Why a synthesized answer may not be called complete. */
  datatype Code = StepEnded(kind: StepKind, cancelled: bool) | Reported(code: nat)

  const PhaseDeadlineExceeded: nat := 0

  /** Artifacts are immutable and content-addressed, so a reference is modelled by the
      payload it names. `tag` stands for everything in a payload the workflow never reads. */
  datatype Artifact =
    | Message(tag: nat)
    | Routed(tag: nat)
    | Planned(tag: nat, facts: seq<Fact>, queries: seq<nat>)
    | DiscoveryInput(plan: Artifact, query: nat)
    | Discovered(tag: nat)
    | SelectionInput(plan: Artifact, discoveries: seq<Artifact>)
    | Selection(tag: nat, selected: seq<Hit>, providerFailures: nat)
    | FetchInput(hit: Hit)
    | Fetched(tag: nat, hit: Hit)
    | Extracted(tag: nat, hit: Hit)
    | VerifyInput(plan: Artifact, extracts: seq<Artifact>)
    | Verified(tag: nat)
    | SynthesisInput(plan: Artifact, verification: Option<Artifact>, failures: nat, codes: set<Code>)
    | Answer(tag: nat, quality: Quality, reason: StopReason)

  datatype Phase = RoutePlanPhase | DiscoveryPhase | FetchExtractPhase | VerifyPhase | SynthesizePhase

  /** Elapsed time by budget phase. */
  datatype Seconds = Seconds(routePlan: nat, discovery: nat, fetchExtract: nat, verify: nat, synthesize: nat)

  /** Resources counted against the run's budget. */
  datatype Usage = Usage(queries: nat, providers: nat, fetches: nat, seconds: Seconds)

  /** What a handler says its step cost, and the phase to charge. */
  datatype Charge = Charge(phase: Phase, queries: nat, providers: nat, fetches: nat)

  const NoUsage := Usage(0, 0, 0, Seconds(0, 0, 0, 0, 0))

  function AddSeconds(a: Seconds, b: Seconds): Seconds {
    Seconds(a.routePlan + b.routePlan, a.discovery + b.discovery, a.fetchExtract + b.fetchExtract,
            a.verify + b.verify, a.synthesize + b.synthesize)
  }

  function AddUsage(a: Usage, b: Usage): Usage {
    Usage(a.queries + b.queries, a.providers + b.providers, a.fetches + b.fetches, AddSeconds(a.seconds, b.seconds))
  }

  function SecondsIn(phase: Phase, elapsed: nat): Seconds {
    match phase
    case RoutePlanPhase => Seconds(elapsed, 0, 0, 0, 0)
    case DiscoveryPhase => Seconds(0, elapsed, 0, 0, 0)
    case FetchExtractPhase => Seconds(0, 0, elapsed, 0, 0)
    case VerifyPhase => Seconds(0, 0, 0, elapsed, 0)
    case SynthesizePhase => Seconds(0, 0, 0, 0, elapsed)
  }

  function Charged(cost: Charge, elapsed: nat): Usage {
    Usage(cost.queries, cost.providers, cost.fetches, SecondsIn(cost.phase, elapsed))
  }

  datatype StepError = StepError(code: nat, retryable: bool, cancelled: bool)

  datatype AttemptEnd = Open | Done(output: Artifact, cost: Usage) | Errored(at: Time)

  datatype Attempt = Attempt(
    no: nat, owner: Worker, leasedUntil: Time, deadline: Time, startedAt: Time, end: AttemptEnd)

  datatype Step = Step(
    status: StepStatus, input: Artifact, output: Option<Artifact>, retryAt: Option<Time>,
    updatedAt: Time, attempts: seq<Attempt>)

  datatype EventKind =
    | RunWasQueued | RunWasCancelled | StepStarted | StepSucceeded | StepRetryScheduled
    | StepFailed | StepCancelled | StepDeadline | StepPhaseDeadline

  datatype Event = Event(kind: EventKind, key: StepKey, attemptNo: nat)

  datatype Settings = Settings(
    leaseSeconds: int, leaseExtension: int, retryBase: int, retryMax: int,
    maxAttempts: int, fetchMaxAttempts: int, grace: int)

  predicate ValidSettings(c: Settings) {
    && 0 < c.leaseSeconds && 0 < c.leaseExtension
    && 0 < c.retryBase <= c.retryMax
    && 1 <= c.fetchMaxAttempts <= c.maxAttempts
    && 0 <= c.grace
  }

  type Config = c: Settings | ValidSettings(c) witness Settings(1, 1, 1, 1, 1, 1, 0)

  type StepMap = map<StepKey, Step>

  /** The rows of one run: `order` lists the step rows by creation, `unpublished` the steps
      whose outbox row has not been delivered, `clock` is the database's idea of now. */
  datatype Run = Run(
    status: RunStatus, mode: Mode, soft: Time, hard: Time, reserve: Time,
    steps: StepMap, order: seq<StepKey>, unpublished: set<StepKey>,
    usage: Usage, events: seq<Event>, outcome: Option<(Quality, StopReason)>, clock: Time)

  // ---------------------------------------------------------------- statuses and lookups

  predicate Terminal(st: StepStatus) {
    st.Succeeded? || st.Failed? || st.Skipped? || st.Cancelled?
  }

  predicate RunTerminal(st: RunStatus) {
    st.RunSucceeded? || st.RunFailed? || st.RunCancelled?
  }

  predicate Succ(m: StepMap, k: StepKey) {
    k in m && m[k].status == Succeeded
  }

  predicate Pending(m: StepMap, k: StepKey) {
    k in m && !Terminal(m[k].status)
  }

  predicate FetchOrExtract(k: StepKey) {
    k.Fetch? || k.Extract?
  }

  predicate HasDiscover(m: StepMap) {
    exists k :: k in m && k.Discover?
  }

  predicate DiscoverDone(m: StepMap) {
    forall k :: k in m && k.Discover? ==> Terminal(m[k].status)
  }

  predicate FetchExtractDone(m: StepMap) {
    forall k :: k in m && FetchOrExtract(k) ==> Terminal(m[k].status)
  }

  predicate OthersDone(m: StepMap) {
    forall k :: k in m && k != Synthesize ==> Terminal(m[k].status)
  }

  // ---------------------------------------------------------------- deadlines and limits

  function NonSynthesisDeadline(s: Run): Time {
    s.soft - s.reserve
  }

  function PhaseDeadline(s: Run, k: StepKey): Time {
    if k == Synthesize then s.hard else NonSynthesisDeadline(s)
  }

  function AttemptLimit(c: Config, k: StepKey): int {
    if k.Fetch? then c.fetchMaxAttempts else c.maxAttempts
  }

  function Pow2(n: nat): nat {
    if n == 0 then 1 else 2 * Pow2(n - 1)
  }

  function RetryDelay(c: Config, no: nat): int
    requires 1 <= no
  {
    Min(c.retryMax, c.retryBase * Pow2(no - 1))
  }

  // ---------------------------------------------------------------- attempts

  function MaxNo(a: seq<Attempt>): nat {
    if a == [] then 0 else Max(a[|a| - 1].no, MaxNo(a[..|a| - 1]))
  }

  /** The report comes from the open attempt with the largest number, and from its owner. */
  predicate IsCurrent(a: seq<Attempt>, no: nat, owner: Worker) {
    && 1 <= no
    && (exists i :: 0 <= i < |a| && a[i].no == no && a[i].owner == owner && a[i].end.Open?)
    && MaxNo(a) == no
  }

  function EndAttempt(a: seq<Attempt>, no: nat, end: AttemptEnd): seq<Attempt> {
    seq(|a|, i requires 0 <= i < |a| => if a[i].no == no && a[i].end.Open? then a[i].(end := end) else a[i])
  }

  function ExtendLease(a: seq<Attempt>, no: nat, until: Time): seq<Attempt> {
    seq(|a|, i requires 0 <= i < |a| => if a[i].no == no && a[i].end.Open? then a[i].(leasedUntil := until) else a[i])
  }

  function ExpireAttempts(a: seq<Attempt>, now: Time): seq<Attempt> {
    seq(|a|, i requires 0 <= i < |a| =>
      if a[i].end.Open? && a[i].leasedUntil <= now then a[i].(end := Errored(now)) else a[i])
  }

  /** The latest lease over the open attempts, if any attempt is open. */
  function OpenLease(a: seq<Attempt>): Option<Time> {
    if a == [] then None
    else
      var rest := OpenLease(a[..|a| - 1]);
      var last := a[|a| - 1];
      if !last.end.Open? then rest
      else if rest.None? then Some(last.leasedUntil)
      else Some(Max(rest.value, last.leasedUntil))
  }

  function AttemptNo(a: seq<Attempt>, no: nat): Option<Attempt> {
    if a == [] then None
    else if a[|a| - 1].no == no then Some(a[|a| - 1]) else AttemptNo(a[..|a| - 1], no)
  }

  // ---------------------------------------------------------------- adding steps

  function AddStep(s: Run, k: StepKey, input: Artifact): Run {
    if k in s.steps then s
    else s.(
      steps := s.steps[k := Step(Ready, input, None, None, s.clock, [])],
      order := s.order + [k],
      unpublished := s.unpublished + {k})
  }

  function AddDiscoveries(s: Run, plan: Artifact, queries: seq<nat>): Run
    decreases |queries|
  {
    if queries == [] then s
    else AddDiscoveries(AddStep(s, Discover(queries[0]), DiscoveryInput(plan, queries[0])), plan, queries[1..])
  }

  function AddFetches(s: Run, selected: seq<Hit>, index: nat): Run
    decreases |selected|
  {
    if selected == [] then s
    else AddFetches(AddStep(s, Fetch(index, selected[0].id), FetchInput(selected[0])), selected[1..], index + 1)
  }

  /** The plan artifact, or nothing when the source raises for want of a successful plan. */
  function PlanRef(s: Run): Option<Artifact> {
    if Succ(s.steps, Plan) then s.steps[Plan].output else None
  }

  // ---------------------------------------------------------------- joins

  /** Outputs of the successful discovery steps, in row order. */
  function DiscoveryRefs(m: StepMap, order: seq<StepKey>): seq<Artifact> {
    if order == [] then []
    else
      var k := order[|order| - 1];
      DiscoveryRefs(m, order[..|order| - 1]) +
      (if k.Discover? && Succ(m, k) && m[k].output.Some? then [m[k].output.value] else [])
  }

  function MaybeSelect(s: Run): Option<Run> {
    if !HasDiscover(s.steps) || !DiscoverDone(s.steps) then Some(s)
    else match PlanRef(s)
      case None => None
      case Some(plan) => Some(AddStep(s, Select, SelectionInput(plan, DiscoveryRefs(s.steps, s.order))))
  }

  /** Saved outputs of the successful extract steps other than `current`, in row order. */
  function OtherExtracts(m: StepMap, order: seq<StepKey>, current: StepKey): seq<Artifact> {
    if order == [] then []
    else
      var k := order[|order| - 1];
      OtherExtracts(m, order[..|order| - 1], current) +
      (if k.Extract? && k != current && Succ(m, k) && m[k].output.Some? then [m[k].output.value] else [])
  }

  /** The current step's output is appended unless an equal reference is listed already. */
  function ExtractRefs(s: Run, current: StepKey): seq<Artifact> {
    var others := OtherExtracts(s.steps, s.order, current);
    if current.Extract? && Succ(s.steps, current) && s.steps[current].output.Some?
       && s.steps[current].output.value !in others
    then others + [s.steps[current].output.value]
    else others
  }

  /** The degradation code a terminal step leaves behind, if any. */
  function EndCodes(m: StepMap, k: StepKey): set<Code> {
    if k !in m || k == Synthesize then {}
    else if m[k].status == Failed then {StepEnded(Kind(k), false)}
    else if m[k].status == Cancelled then {StepEnded(Kind(k), true)}
    else {}
  }

  function PipelineCodes(m: StepMap, order: seq<StepKey>): set<Code> {
    if order == [] then {}
    else PipelineCodes(m, order[..|order| - 1]) + EndCodes(m, order[|order| - 1])
  }

  function ProviderFailures(m: StepMap): nat {
    if Select in m && m[Select].output.Some? && m[Select].output.value.Selection?
    then m[Select].output.value.providerFailures else 0
  }

  function VerifyRef(m: StepMap): Option<Artifact> {
    if Succ(m, Verify) then m[Verify].output else None
  }

  function MaybeSynthesize(s: Run, codes: set<Code>): Option<Run> {
    if !OthersDone(s.steps) then Some(s)
    else match PlanRef(s)
      case None => None
      case Some(plan) =>
        Some(AddStep(s, Synthesize, SynthesisInput(
          plan, VerifyRef(s.steps), ProviderFailures(s.steps), codes + PipelineCodes(s.steps, s.order))))
  }

  function Facts(a: Artifact): seq<Fact> {
    if a.Planned? then a.facts else []
  }

  function RequiredFacts(a: Artifact): set<nat> {
    set f | f in Facts(a) && f.required :: f.id
  }

  predicate IsDirect(a: Artifact) {
    (a.Fetched? || a.Extracted?) && a.hit.direct
  }

  function HitFacts(a: Artifact): set<nat> {
    if a.Fetched? || a.Extracted? then a.hit.facts else {}
  }

  function CoveredFacts(refs: seq<Artifact>): set<nat> {
    if refs == [] then {}
    else CoveredFacts(refs[..|refs| - 1]) + HitFacts(refs[|refs| - 1])
  }

  /** FAST may verify before every fetch has ended: all extracts so far come from direct
      sources and together they cover every required fact. */
  predicate EarlyVerify(s: Run, plan: Artifact, refs: seq<Artifact>) {
    && s.mode == Fast
    && (forall a :: a in refs ==> IsDirect(a))
    && RequiredFacts(plan) != {}
    && RequiredFacts(plan) <= CoveredFacts(refs)
  }

  function MaybeVerify(s: Run, current: StepKey, codes: set<Code>): Option<Run> {
    var done := FetchExtractDone(s.steps);
    var refs := ExtractRefs(s, current);
    if Verify in s.steps then
      if done && Terminal(s.steps[Verify].status) then MaybeSynthesize(s, codes) else Some(s)
    else if refs == [] then
      if done then MaybeSynthesize(s, codes) else Some(s)
    else match PlanRef(s)
      case None => None
      case Some(plan) =>
        if !done && !EarlyVerify(s, plan, refs) then Some(s)
        else Some(AddStep(s, Verify, VerifyInput(plan, refs)))
  }

  // ---------------------------------------------------------------- completion hook

  /** A handler's payload has the shape its step type persists; any other payload makes the
      unit of work raise and roll back. */
  predicate Fits(k: StepKey, a: Artifact) {
    match k
    case Route => a.Routed?
    case Plan => a.Planned?
    case Discover(_) => a.Discovered?
    case Select => a.Selection?
    case Fetch(_, _) => a.Fetched?
    case Extract(_, _) => a.Extracted?
    case Verify => a.Verified?
    case Synthesize => a.Answer?
  }

  predicate ConsistentAnswer(q: Quality, r: StopReason) {
    && (q == Complete <==> r == FactsCovered)
    && r != UserCancelled
  }

  function SucceedRun(s: Run, q: Quality, r: StopReason): Option<Run> {
    if s.status == RunRunning && ConsistentAnswer(q, r)
    then Some(s.(status := RunSucceeded, outcome := Some((q, r)))) else None
  }

  /** What a successful step schedules next; nothing when the source raises. */
  function OnSuccess(s: Run, k: StepKey, out: Artifact): Option<Run> {
    if !Fits(k, out) then None
    else match k
      case Route => Some(AddStep(s, Plan, out))
      case Plan =>
        if out.queries == [] then MaybeSynthesize(s, {}) else Some(AddDiscoveries(s, out, out.queries))
      case Discover(_) => MaybeSelect(s)
      case Select =>
        if out.selected == [] then MaybeSynthesize(s, {}) else Some(AddFetches(s, out.selected, 1))
      case Fetch(i, h) => Some(AddStep(s, Extract(i, h), out))
      case Extract(_, _) => MaybeVerify(s, k, {})
      case Verify => MaybeSynthesize(s, {})
      case Synthesize => SucceedRun(s, out.quality, out.reason)
  }

  function FailRun(s: Run): Run {
    if RunTerminal(s.status) then s else s.(status := RunFailed)
  }

  /** What a step that ended without success schedules next. */
  function OnFailure(s: Run, k: StepKey, code: nat): Option<Run> {
    if RunTerminal(s.status) then Some(s)
    else if k.Route? || k.Plan? || k.Synthesize? then Some(FailRun(s))
    else if k.Discover? then MaybeSelect(s)
    else if FetchOrExtract(k) then MaybeVerify(s, k, {Reported(code)})
    else MaybeSynthesize(s, {Reported(code)})
  }

  // ---------------------------------------------------------------- units of work

  function Log(s: Run, kind: EventKind, k: StepKey, no: nat): Run {
    s.(events := s.events + [Event(kind, k, no)])
  }

  function Put(s: Run, k: StepKey, st: Step): Run {
    s.(steps := s.steps[k := st.(updatedAt := s.clock)])
  }

  function StartRun(s: Run): Run {
    if s.status == RunQueued || s.status == RunWaiting then s.(status := RunRunning) else s
  }

  function ClaimLease(c: Config, s: Run, k: StepKey, worker: Worker, now: Time): Run
    requires k in s.steps
  {
    var st := s.steps[k];
    var no := MaxNo(st.attempts) + 1;
    var deadline := PhaseDeadline(s, k);
    var attempt := Attempt(no, worker, Min(deadline, now + c.leaseSeconds), deadline, now, Open);
    var s1 := Put(StartRun(s), k, st.(status := Running, retryAt := None, attempts := st.attempts + [attempt]));
    Log(s1, StepStarted, k, no)
  }

  function Claim(c: Config, s: Run, k: StepKey, worker: Worker, now: Time): Run {
    if k !in s.steps || s.steps[k].status != Ready then s
    else
      var st := s.steps[k];
      if RunTerminal(s.status) then Put(s, k, st.(status := Cancelled))
      else if now >= s.hard then
        Log(Put(s.(status := RunFailed), k, st.(status := Failed, retryAt := None)), StepDeadline, k, 0)
      else if now >= PhaseDeadline(s, k) then
        var s1 := Put(StartRun(s), k, st.(status := Failed, retryAt := None));
        match OnFailure(s1, k, PhaseDeadlineExceeded)
        case None => s
        case Some(s2) => Log(s2, StepPhaseDeadline, k, 0)
      else ClaimLease(c, s, k, worker, now)
  }

  /** Is this report from the attempt that still owns the running step? */
  predicate Accepts(s: Run, k: StepKey, no: nat, owner: Worker) {
    k in s.steps && s.steps[k].status == Running && IsCurrent(s.steps[k].attempts, no, owner)
  }

  function Elapsed(s: Run, k: StepKey, no: nat, now: Time): nat
    requires k in s.steps
  {
    match AttemptNo(s.steps[k].attempts, no)
    case None => 0
    case Some(a) => Max(0, now - a.startedAt)
  }

  function Finish(s: Run, k: StepKey, no: nat, out: Artifact, cost: Charge, now: Time): Run
    requires k in s.steps
  {
    var st := s.steps[k];
    var full := Charged(cost, Elapsed(s, k, no, now));
    Put(s.(usage := AddUsage(s.usage, full)), k,
        st.(status := Succeeded, output := Some(out), attempts := EndAttempt(st.attempts, no, Done(out, full))))
  }

  function Abandon(s: Run, k: StepKey, no: nat, now: Time): Run
    requires k in s.steps
  {
    var st := s.steps[k];
    Put(s, k, st.(status := Cancelled, attempts := EndAttempt(st.attempts, no, Errored(now))))
  }

  function Succeed(s: Run, k: StepKey, no: nat, owner: Worker, out: Artifact, cost: Charge, now: Time): Run {
    if !Accepts(s, k, no, owner) then s
    else if RunTerminal(s.status) then Log(Abandon(s, k, no, now), StepCancelled, k, no)
    else match OnSuccess(Finish(s, k, no, out, cost, now), k, out)
      case None => s
      case Some(s2) => Log(s2, StepSucceeded, k, no)
  }

  predicate MayRetry(c: Config, s: Run, k: StepKey, no: nat, error: StepError, now: Time)
    requires 1 <= no
  {
    error.retryable && no < AttemptLimit(c, k) && now + RetryDelay(c, no) < s.hard
  }

  function RetryLater(c: Config, s: Run, k: StepKey, no: nat, now: Time): Run
    requires k in s.steps && 1 <= no
  {
    var st := s.steps[k];
    Put(s, k, st.(status := RetryWait, retryAt := Some(now + RetryDelay(c, no)),
                  attempts := EndAttempt(st.attempts, no, Errored(now))))
  }

  function FailStep(s: Run, k: StepKey, no: nat, now: Time): Run
    requires k in s.steps
  {
    var st := s.steps[k];
    Put(s, k, st.(status := Failed, attempts := EndAttempt(st.attempts, no, Errored(now))))
  }

  function Fail(c: Config, s: Run, k: StepKey, no: nat, owner: Worker, error: StepError, now: Time): Run {
    if !Accepts(s, k, no, owner) then s
    else if RunTerminal(s.status) || error.cancelled then
      match OnFailure(Abandon(s, k, no, now), k, error.code)
      case None => s
      case Some(s2) => Log(s2, StepCancelled, k, no)
    else if MayRetry(c, s, k, no, error, now) then
      Log(RetryLater(c, s, k, no, now), StepRetryScheduled, k, no)
    else
      match OnFailure(FailStep(s, k, no, now), k, error.code)
      case None => s
      case Some(s2) => Log(s2, StepFailed, k, no)
  }

  function Renew(c: Config, s: Run, k: StepKey, no: nat, owner: Worker, now: Time): Run {
    if !Accepts(s, k, no, owner) then s
    else match AttemptNo(s.steps[k].attempts, no)
      case None => s
      case Some(a) =>
        var until := Min(a.deadline, now + c.leaseExtension);
        if now >= a.deadline || until <= a.leasedUntil then s
        else s.(steps := s.steps[k := s.steps[k].(attempts := ExtendLease(s.steps[k].attempts, no, until))])
  }

  /** `seen` and `now` belong to the reconciler's snapshot and may be arbitrarily old. */
  function MakeReady(s: Run, k: StepKey, seen: StepStatus, now: Time): Run {
    if k !in s.steps then s
    else
      var st := s.steps[k];
      if seen == RetryWait && st.status == RetryWait then
        if st.retryAt.None? || st.retryAt.value > now then s
        else Put(s, k, st.(status := Ready, retryAt := None))
      else if seen == Running && st.status == Running then
        match OpenLease(st.attempts)
        case None => s
        case Some(lease) =>
          if lease > now then s
          else Put(s, k, st.(status := Ready, attempts := ExpireAttempts(st.attempts, now)))
      else s
  }

  function MarkDispatched(s: Run, k: StepKey, now: Time): Run {
    if k in s.steps && s.steps[k].status == Ready
    then s.(steps := s.steps[k := s.steps[k].(updatedAt := now)]) else s
  }

  function CancelRun(s: Run): Run {
    if RunTerminal(s.status) then s
    else Log(s.(status := RunCancelled), RunWasCancelled, Route, 0)
  }

  /** A step the reconciler's scan returns. */
  predicate Candidate(c: Config, s: Run, k: StepKey, now: Time) {
    && k in s.steps
    && !RunTerminal(s.status)
    && k !in s.unpublished
    && var st := s.steps[k];
       || (st.status == Ready && st.updatedAt <= now - c.grace)
       || (st.status == RetryWait && st.retryAt.Some? && st.retryAt.value <= now)
       || (st.status == Running && var l := OpenLease(st.attempts); l.Some? && l.value <= now)
  }

  // ---------------------------------------------------------------- runs

  datatype Action =
    | Tick(seconds: nat)
    | DoClaim(key: StepKey, worker: Worker, age: nat)
    | DoSucceed(key: StepKey, no: nat, worker: Worker, output: Artifact, cost: Charge, age: nat)
    | DoFail(key: StepKey, no: nat, worker: Worker, error: StepError, age: nat)
    | DoRenew(key: StepKey, no: nat, worker: Worker, age: nat)
    | DoMakeReady(key: StepKey, seen: StepStatus, age: nat)
    | DoMarkDispatched(key: StepKey, age: nat)
    | DoPublish(key: StepKey)
    | DoCancel

  /** One transition. A unit of work reads the clock before it takes its row locks, and the
      reconciler before it scans, so their `now` may lie any `age` in the past. */
  function Next(c: Config, s: Run, a: Action): Run {
    match a
    case Tick(d) => s.(clock := s.clock + d)
    case DoClaim(k, w, age) => Claim(c, s, k, w, s.clock - age)
    case DoSucceed(k, no, w, out, cost, age) => Succeed(s, k, no, w, out, cost, s.clock - age)
    case DoFail(k, no, w, e, age) => Fail(c, s, k, no, w, e, s.clock - age)
    case DoRenew(k, no, w, age) => Renew(c, s, k, no, w, s.clock - age)
    case DoMakeReady(k, seen, age) => MakeReady(s, k, seen, s.clock - age)
    case DoMarkDispatched(k, age) => MarkDispatched(s, k, s.clock - age)
    case DoPublish(k) => s.(unpublished := s.unpublished - {k})
    case DoCancel => CancelRun(s)
  }

  function Exec(c: Config, s: Run, trace: seq<Action>): Run {
    if trace == [] then s
    else Next(c, Exec(c, s, trace[..|trace| - 1]), trace[|trace| - 1])
  }

  /** What a message submission fixes: the mode and the deadlines of the run it opens. */
  datatype Submission = Submission(
    mode: Mode, now: Time, softSeconds: nat, hardSeconds: nat, reserve: Time, message: nat)
  {
    predicate Valid() {
      softSeconds <= hardSeconds && 0 < reserve
    }
  }

  /** The rows a submitted message creates, in one transaction. */
  function Submitted(m: Submission): Run {
    Run(RunQueued, m.mode, m.now + m.softSeconds, m.now + m.hardSeconds, m.reserve,
        map[Route := Step(Ready, Message(m.message), None, None, m.now, [])], [Route], {Route},
        NoUsage, [Event(RunWasQueued, Route, 0)], None, m.now)
  }

  /** A run some sequence of transitions leads to from a valid submission. */
  ghost predicate Reachable(c: Config, s: Run) {
    exists m: Submission, trace: seq<Action> :: m.Valid() && s == Exec(c, Submitted(m), trace)
  }
}
