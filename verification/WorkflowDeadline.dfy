/** Past its hard deadline a run can only wind down. */
module WorkflowDeadline {
  import opened Wrappers
  import opened WorkflowModel
  import opened WorkflowInvariant
  import opened WorkflowGraph
  import opened WorkflowPreservation
  import opened WorkflowSafety

  function WithStatus(m: StepMap, st: StepStatus): set<StepKey> {
    set k | k in m && m[k].status == st
  }

  predicate SameStatuses(s: Run, t: Run) {
    && t.steps.Keys == s.steps.Keys
    && (forall k :: k in s.steps ==> t.steps[k].status == s.steps[k].status)
  }

  /** (#RUNNING, #RETRY_WAIT, #READY) strictly decreases lexicographically. */
  predicate Descends(s: Run, t: Run) {
    var r, r' := |WithStatus(s.steps, Running)|, |WithStatus(t.steps, Running)|;
    var w, w' := |WithStatus(s.steps, RetryWait)|, |WithStatus(t.steps, RetryWait)|;
    var y, y' := |WithStatus(s.steps, Ready)|, |WithStatus(t.steps, Ready)|;
    r' < r || (r' == r && (w' < w || (w' == w && y' < y)))
  }

  /** One row leaves `from`; rows may be added READY; nothing else moves. */
  predicate Moves(s: Run, t: Run, k: StepKey, from: StepStatus) {
    && k in s.steps && s.steps[k].status == from
    && k in t.steps && t.steps[k].status != from && (!t.steps[k].status.Running? && !t.steps[k].status.RetryWait?)
    && (forall j :: j in s.steps && j != k ==> j in t.steps && t.steps[j].status == s.steps[j].status)
    && (forall j :: j in t.steps && j !in s.steps ==> t.steps[j].status == Ready)
  }

  lemma FewerRunning(s: Run, t: Run, k: StepKey)
    requires Moves(s, t, k, Running)
    ensures Descends(s, t)
  {
    assert WithStatus(t.steps, Running) == WithStatus(s.steps, Running) - {k};
  }

  lemma FewerWaiting(s: Run, t: Run, k: StepKey)
    requires Moves(s, t, k, RetryWait)
    ensures Descends(s, t)
  {
    assert WithStatus(t.steps, Running) == WithStatus(s.steps, Running);
    assert WithStatus(t.steps, RetryWait) == WithStatus(s.steps, RetryWait) - {k};
  }

  lemma FewerReady(s: Run, t: Run, k: StepKey)
    requires Moves(s, t, k, Ready) && t.steps.Keys == s.steps.Keys
    ensures Descends(s, t)
  {
    assert WithStatus(t.steps, Running) == WithStatus(s.steps, Running);
    assert WithStatus(t.steps, RetryWait) == WithStatus(s.steps, RetryWait);
    assert WithStatus(t.steps, Ready) == WithStatus(s.steps, Ready) - {k};
  }

  lemma RetryDelayPositive(c: Config, no: nat)
    requires 1 <= no
    ensures 0 < RetryDelay(c, no)
  {
    Pow2Positive(no - 1);
    assert c.retryBase * Pow2(no - 1) >= c.retryBase by {
      assert c.retryBase * (Pow2(no - 1) - 1) >= 0;
    }
  }

  lemma {:induction false} Pow2Positive(n: nat)
    ensures 1 <= Pow2(n)
  {
    if n > 0 { Pow2Positive(n - 1); }
  }

  lemma SucceedDescends(s: Run, k: StepKey, no: nat, owner: Worker, out: Artifact, cost: Charge, now: Time)
    ensures var t := Succeed(s, k, no, owner, out, cost, now); t == s || Descends(s, t)
  {
    hide IsCurrent, OnSuccess, Descends, Elapsed, Charged, AddUsage, EndAttempt;
    var t := Succeed(s, k, no, owner, out, cost, now);
    if Accepts(s, k, no, owner) {
      if RunTerminal(s.status) {
        FewerRunning(s, t, k);
      } else {
        var s1 := Finish(s, k, no, out, cost, now);
        if OnSuccess(s1, k, out).Some? {
          OnSuccessGrows(s1, k, out);
          FewerRunning(s, t, k);
        }
      }
    }
  }

  lemma FailDescends(c: Config, s: Run, k: StepKey, no: nat, owner: Worker, e: StepError, now: Time)
    requires now >= s.hard
    ensures var t := Fail(c, s, k, no, owner, e, now); t == s || Descends(s, t)
  {
    hide OnFailure, Descends, IsCurrent;
    var t := Fail(c, s, k, no, owner, e, now);
    if Accepts(s, k, no, owner) {
      AcceptedNumber(s, k, no, owner);
      RetryDelayPositive(c, no);
      var s1 := if RunTerminal(s.status) || e.cancelled then Abandon(s, k, no, now) else FailStep(s, k, no, now);
      if OnFailure(s1, k, e.code).Some? {
        OnFailureGrows(s1, k, e.code);
        FewerRunning(s, t, k);
      }
    }
  }

  lemma ClaimDescends(c: Config, s: Run, k: StepKey, w: Worker, now: Time)
    requires now >= s.hard
    ensures Claim(c, s, k, w, now) == s || Descends(s, Claim(c, s, k, w, now))
  {
    hide Descends, OnFailure;
    if k in s.steps && s.steps[k].status == Ready {
      FewerReady(s, Claim(c, s, k, w, now), k);
    }
  }

  lemma RecoveryDescends(s: Run, k: StepKey, seen: StepStatus, now: Time)
    ensures MakeReady(s, k, seen, now) == s || Descends(s, MakeReady(s, k, seen, now))
  {
    hide Descends, OpenLease;
    var t := MakeReady(s, k, seen, now);
    if t != s {
      if seen == RetryWait { FewerWaiting(s, t, k); } else { FewerRunning(s, t, k); }
    }
  }

  /** The units of work that decide by time read the clock at or past the hard deadline. */
  predicate Late(s: Run, a: Action) {
    a.DoClaim? || a.DoFail? ==> s.clock - a.age >= s.hard
  }

  /** Past the hard deadline, a transition either changes no step's status or strictly
      decreases the measure. */
  lemma PastDeadlineDescends(c: Config, s: Run, a: Action)
    requires Late(s, a)
    ensures SameStatuses(s, Next(c, s, a)) || Descends(s, Next(c, s, a))
  {
    hide Claim, Succeed, Fail, MakeReady, Descends, IsCurrent;
    match a
    case DoClaim(k, w, age) =>
      ClaimDescends(c, s, k, w, s.clock - age);
    case DoSucceed(k, no, w, out, cost, age) =>
      SucceedDescends(s, k, no, w, out, cost, s.clock - age);
    case DoFail(k, no, w, e, age) =>
      FailDescends(c, s, k, no, w, e, s.clock - age);
    case DoMakeReady(k, seen, age) => RecoveryDescends(s, k, seen, s.clock - age);
    case _ =>
  }

  // ---------------------------------------------------------------- endless schedules

  /** The state after the first `n` transitions of an infinite schedule. */
  function After(c: Config, s: Run, schedule: nat -> Action, n: nat): Run {
    if n == 0 then s else Next(c, After(c, s, schedule, n - 1), schedule(n - 1))
  }

  function Shift(schedule: nat -> Action, i: nat): nat -> Action {
    (x: nat) => schedule(x + i)
  }

  lemma {:induction false} AfterShift(c: Config, s: Run, schedule: nat -> Action, i: nat, n: nat)
    ensures After(c, After(c, s, schedule, i), Shift(schedule, i), n) == After(c, s, schedule, i + n)
  {
    hide Next;
    if n > 0 {
      AfterShift(c, s, schedule, i, n - 1);
    }
  }

  /** No unit of work commits more than `delay` after it read the clock. */
  ghost predicate Prompt(schedule: nat -> Action, delay: nat) {
    forall n :: schedule(n).DoClaim? || schedule(n).DoFail? ==> schedule(n).age <= delay
  }

  lemma {:induction false} AfterKeepsDeadline(c: Config, s: Run, schedule: nat -> Action, delay: nat, n: nat)
    requires Inv(c, s) && s.clock >= s.hard + delay
    ensures var t := After(c, s, schedule, n); Inv(c, t) && t.clock >= t.hard + delay
  {
    hide Inv, Next;
    if n > 0 {
      AfterKeepsDeadline(c, s, schedule, delay, n - 1);
      var t := After(c, s, schedule, n - 1);
      NextKeeps(c, t, schedule(n - 1));
      NextMonotone(c, t, schedule(n - 1));
    }
  }

  /** The first transition, at or after `i`, that changes some step's status before `m`. */
  lemma {:induction false} FirstChange(c: Config, s: Run, schedule: nat -> Action, m: nat) returns (i: nat)
    requires !SameStatuses(s, After(c, s, schedule, m))
    ensures i < m && SameStatuses(s, After(c, s, schedule, i))
    ensures !SameStatuses(After(c, s, schedule, i), After(c, s, schedule, i + 1))
  {
    hide Next;
    if SameStatuses(s, After(c, s, schedule, m - 1)) {
      i := m - 1;
    } else {
      i := FirstChange(c, s, schedule, m - 1);
    }
  }

  lemma SameCounts(s: Run, t: Run, st: StepStatus)
    requires SameStatuses(s, t)
    ensures WithStatus(t.steps, st) == WithStatus(s.steps, st)
  {
  }

  /** However the environment schedules a run for ever, once the hard deadline has passed by as
      much as a unit of work may be late, the steps change status only finitely often. */
  lemma {:induction false} WindsDown(c: Config, s: Run, schedule: nat -> Action, delay: nat) returns (n: nat)
    requires Inv(c, s) && Prompt(schedule, delay) && s.clock >= s.hard + delay
    ensures forall m :: m >= n ==> SameStatuses(After(c, s, schedule, n), After(c, s, schedule, m))
    decreases |WithStatus(s.steps, Running)|, |WithStatus(s.steps, RetryWait)|, |WithStatus(s.steps, Ready)|
  {
    hide Inv, Next, SameStatuses, WithStatus;
    if m: nat :| !SameStatuses(s, After(c, s, schedule, m)) {
      var i := FirstChange(c, s, schedule, m);
      var t, u := After(c, s, schedule, i), After(c, s, schedule, i + 1);
      AfterKeepsDeadline(c, s, schedule, delay, i);
      AfterKeepsDeadline(c, s, schedule, delay, i + 1);
      PastDeadlineDescends(c, t, schedule(i));
      SameCounts(s, t, Running);
      SameCounts(s, t, RetryWait);
      SameCounts(s, t, Ready);
      var j := WindsDown(c, u, Shift(schedule, i + 1), delay);
      n := i + 1 + j;
      forall q | q >= n ensures SameStatuses(After(c, s, schedule, n), After(c, s, schedule, q)) {
        AfterShift(c, s, schedule, i + 1, j);
        AfterShift(c, s, schedule, i + 1, q - (i + 1));
      }
    } else {
      n := 0;
    }
  }

  // ---------------------------------------------------------------- two steps from the end

  /** What it takes to end a run through a given unfinished step. */
  function WindDown(s: Run, k: StepKey, w: Worker): seq<Action>
    requires k in s.steps
  {
    if s.steps[k].status == Ready then [DoClaim(k, w, 0)]
    else [DoMakeReady(k, s.steps[k].status, 0), DoClaim(k, w, 0)]
  }

  lemma TwoSteps(c: Config, s: Run, a: Action, b: Action)
    ensures Exec(c, s, [a]) == Next(c, s, a)
    ensures Exec(c, s, [a, b]) == Next(c, Next(c, s, a), b)
  {
    assert [a][..0] == [];
    assert [a, b][..1] == [a];
    assert Exec(c, s, []) == s;
    assert Exec(c, s, [a]) == Next(c, Exec(c, s, [a][..0]), a);
  }

  /** Past the hard deadline every unfinished step is at most one recovery and one claim away
      from ending the whole run; and there always is such a step. */
  lemma AtMostTwoStepsFromTheEnd(c: Config, s: Run, w: Worker)
    requires Reachable(c, s) && !RunTerminal(s.status) && s.clock >= s.hard
    ensures exists k :: Pending(s.steps, k)
    ensures forall k :: Pending(s.steps, k) ==>
              |WindDown(s, k, w)| <= 2 && RunTerminal(Exec(c, s, WindDown(s, k, w)).status)
  {
    hide Inv, Claim, MakeReady;
    NeverStranded(c, s);
    ReachableOk(c, s);
    forall k | Pending(s.steps, k) ensures RunTerminal(Exec(c, s, WindDown(s, k, w)).status) {
      assert s.clock - 0 == s.clock;
      TwoSteps(c, s, DoClaim(k, w, 0), DoClaim(k, w, 0));
      TwoSteps(c, s, DoMakeReady(k, s.steps[k].status, 0), DoClaim(k, w, 0));
      EndsThrough(c, s, k, w);
    }
  }

  lemma EndsThrough(c: Config, s: Run, k: StepKey, w: Worker)
    requires Inv(c, s) && !RunTerminal(s.status) && s.clock >= s.hard && Pending(s.steps, k)
    ensures var t := if s.steps[k].status == Ready then s else MakeReady(s, k, s.steps[k].status, s.clock);
            RunTerminal(Claim(c, t, k, w, t.clock).status)
  {
    hide Graph, Live, Rows, Accounts, History;
    assert StepOk(k, s.steps[k], s.hard);
    OpenLeaseIs(s.steps[k].attempts);
  }
}
