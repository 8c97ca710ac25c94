/** Submitting a message: the one place where search runs come into being. A conversation's row is
    locked before anything is read, so a submission is one atomic step. */
module Conversation {
  import opened Wrappers
  import opened WorkflowModel
  import opened WorkflowPreservation

  predicate Space(c: char) {
    c in " \t\n\r"
  }

  /** A text without the white space around it. */
  function Strip(s: string): string {
    if s == [] then []
    else if Space(s[0]) then Strip(s[1..])
    else if Space(s[|s| - 1]) then Strip(s[..|s| - 1])
    else s
  }

  datatype Command = Command(
    tenant: nat, user: nat, conversation: nat, content: string, key: string, mode: Mode, policyVersion: nat)

  datatype Budget = Budget(softSeconds: nat, hardSeconds: nat, reserve: Time)

  datatype Policy = Policy(version: nat, fast: Budget, research: Budget)

  predicate ValidPolicy(p: Policy) {
    && p.fast.softSeconds <= p.fast.hardSeconds && 0 < p.fast.reserve
    && p.research.softSeconds <= p.research.hardSeconds && 0 < p.research.reserve
  }

  datatype Error = BadCommand | PolicyMismatch | ConversationNotFound | IdempotencyConflict

  /** Where an idempotency key counts. */
  datatype Place = Place(tenant: nat, conversation: nat, key: string)

  datatype Ids = Ids(message: nat, response: nat, run: nat)

  datatype UserMessage = UserMessage(place: Place, author: nat, content: string)

  datatype Receipt = Receipt(ids: Ids, status: RunStatus, duplicate: bool, content: string)

  /** `owners` gives the owner of each conversation of each tenant. The content stands for its
      hash. */
  datatype Store = Store(
    owners: map<(nat, nat), nat>, index: map<Place, Ids>, messages: map<nat, UserMessage>,
    responses: map<nat, nat>, runs: map<nat, Run>, nextId: nat)

  predicate Acceptable(c: Command) {
    Strip(c.content) != [] && 1 <= |Strip(c.key)| <= 200
  }

  function PlaceOf(c: Command): Place {
    Place(c.tenant, c.conversation, Strip(c.key))
  }

  function Opened(p: Policy, c: Command, message: nat, now: Time): Submission {
    var b := if c.mode == Fast then p.fast else p.research;
    Submission(c.mode, now, b.softSeconds, b.hardSeconds, b.reserve, message)
  }

  /** The rows a new submission adds. */
  function Added(p: Policy, s: Store, c: Command, now: Time): Store {
    var ids := Ids(s.nextId, s.nextId + 1, s.nextId + 2);
    Store(
      s.owners,
      s.index[PlaceOf(c) := ids],
      s.messages[ids.message := UserMessage(PlaceOf(c), c.user, Strip(c.content))],
      s.responses[ids.response := ids.message],
      s.runs[ids.run := Submitted(Opened(p, c, ids.message, now))],
      s.nextId + 3)
  }

  /** What a submission answers and leaves behind. */
  function Submit(p: Policy, s: Store, c: Command, now: Time): (Result<Receipt, Error>, Store) {
    if !Acceptable(c) then (Err(BadCommand), s)
    else if c.policyVersion != p.version then (Err(PolicyMismatch), s)
    else if (c.tenant, c.conversation) !in s.owners || s.owners[(c.tenant, c.conversation)] != c.user then
      (Err(ConversationNotFound), s)
    else if PlaceOf(c) in s.index && s.index[PlaceOf(c)].message in s.messages && s.index[PlaceOf(c)].run in s.runs then
      var ids := s.index[PlaceOf(c)];
      if s.messages[ids.message].content != Strip(c.content) then (Err(IdempotencyConflict), s)
      else (Ok(Receipt(ids, s.runs[ids.run].status, true, Strip(c.content))), s)
    else
      var s' := Added(p, s, c, now);
      (Ok(Receipt(s'.index[PlaceOf(c)], RunQueued, false, Strip(c.content))), s')
  }

  // ---------------------------------------------------------------- every interleaving

  datatype Event = DoSubmit(command: Command, now: Time) | DoWork(run: nat, action: Action)

  function Happens(c: Config, p: Policy, s: Store, e: Event): Store {
    match e
    case DoSubmit(command, now) => Submit(p, s, command, now).1
    case DoWork(run, action) =>
      if run in s.runs then s.(runs := s.runs[run := Next(c, s.runs[run], action)]) else s
  }

  function Replay(c: Config, p: Policy, start: Store, es: seq<Event>): Store {
    if es == [] then start else Happens(c, p, Replay(c, p, start, es[..|es| - 1]), es[|es| - 1])
  }

  function Empty(owners: map<(nat, nat), nat>): Store {
    Store(owners, map[], map[], map[], map[], 0)
  }

  predicate FullyRecorded(s: Store, q: Place, ids: Ids) {
    && ids.message in s.messages && s.messages[ids.message].place == q
    && ids.response in s.responses && s.responses[ids.response] == ids.message
    && ids.run in s.runs
  }

  predicate IndexOk(s: Store) {
    forall q :: q in s.index ==> FullyRecorded(s, q, s.index[q])
  }

  /** The message is the one of its key. */
  predicate OwnMessage(s: Store, m: nat)
    requires m in s.messages
  {
    m < s.nextId && s.messages[m].place in s.index && s.index[s.messages[m].place].message == m
  }

  predicate OwnResponse(s: Store, r: nat)
    requires r in s.responses
  {
    && r < s.nextId && s.responses[r] in s.messages
    && s.messages[s.responses[r]].place in s.index && s.index[s.messages[s.responses[r]].place].response == r
  }

  ghost predicate OwnRun(s: Store, x: nat) {
    x < s.nextId && exists q :: q in s.index && s.index[q].run == x
  }

  predicate RunsApart(s: Store) {
    forall q, r :: q in s.index && r in s.index && s.index[q].run == s.index[r].run ==> q == r
  }

  /** Every key in use has a message, a response run and a search run of its own, and there are no
      others. */
  ghost predicate Linked(s: Store) {
    && IndexOk(s)
    && (forall m :: m in s.messages ==> OwnMessage(s, m))
    && (forall r :: r in s.responses ==> OwnResponse(s, r))
    && (forall x :: x in s.runs ==> OwnRun(s, x))
    && RunsApart(s)
  }

  ghost predicate AllReachable(c: Config, s: Store) {
    forall x :: x in s.runs ==> Reachable(c, s.runs[x])
  }

  lemma AddedIndex(p: Policy, s: Store, c: Command, now: Time)
    requires IndexOk(s) && PlaceOf(c) !in s.index
    requires forall q :: q in s.index ==> s.index[q].message < s.nextId && s.index[q].response < s.nextId
    ensures IndexOk(Added(p, s, c, now))
  {
    hide Opened, Submitted, Strip;
    var s' := Added(p, s, c, now);
    forall q | q in s'.index ensures FullyRecorded(s', q, s'.index[q]) {
      assert q in s.index ==> FullyRecorded(s, q, s.index[q]);
    }
  }

  lemma AddedOwns(p: Policy, s: Store, c: Command, now: Time)
    requires PlaceOf(c) !in s.index
    requires forall m :: m in s.messages ==> OwnMessage(s, m)
    requires forall r :: r in s.responses ==> OwnResponse(s, r)
    ensures var s' := Added(p, s, c, now);
      && (forall m :: m in s'.messages ==> OwnMessage(s', m))
      && (forall r :: r in s'.responses ==> OwnResponse(s', r))
  {
    hide Opened, Submitted, Strip;
    var s' := Added(p, s, c, now);
    forall m | m in s'.messages ensures OwnMessage(s', m) {
      assert m in s.messages ==> OwnMessage(s, m);
    }
    forall r | r in s'.responses ensures OwnResponse(s', r) {
      assert r in s.responses ==> OwnResponse(s, r) && OwnMessage(s, s.responses[r]);
    }
  }

  lemma AddedRuns(p: Policy, s: Store, c: Command, now: Time)
    requires PlaceOf(c) !in s.index && RunsApart(s)
    requires forall x :: x in s.runs ==> OwnRun(s, x)
    requires forall q :: q in s.index ==> s.index[q].run < s.nextId
    ensures var s' := Added(p, s, c, now);
      (forall x :: x in s'.runs ==> OwnRun(s', x)) && RunsApart(s')
  {
    hide Opened, Submitted, Strip;
    var s', place := Added(p, s, c, now), PlaceOf(c);
    forall x | x in s'.runs ensures OwnRun(s', x) {
      if x in s.runs {
        var q :| q in s.index && s.index[q].run == x;
        assert q in s'.index && s'.index[q].run == x;
      } else {
        assert place in s'.index && s'.index[place].run == x;
      }
    }
  }

  lemma AddedIsLinked(p: Policy, s: Store, c: Command, now: Time)
    requires Linked(s) && PlaceOf(c) !in s.index
    ensures Linked(Added(p, s, c, now))
  {
    hide Opened, Submitted, Strip, RunsApart;
    forall q | q in s.index
      ensures s.index[q].message < s.nextId && s.index[q].response < s.nextId && s.index[q].run < s.nextId
    {
      assert FullyRecorded(s, q, s.index[q]);
      assert OwnMessage(s, s.index[q].message) && OwnResponse(s, s.index[q].response) && OwnRun(s, s.index[q].run);
    }
    hide Added, OwnMessage, OwnResponse, OwnRun, FullyRecorded, IndexOk;
    AddedIndex(p, s, c, now);
    AddedOwns(p, s, c, now);
    AddedRuns(p, s, c, now);
  }

  lemma NewRunIsReachable(c: Config, m: Submission)
    requires m.Valid()
    ensures Reachable(c, Submitted(m))
  {
    assert Submitted(m) == Exec(c, Submitted(m), []);
  }

  lemma WorkKeepsReachable(c: Config, s: Run, a: Action)
    requires Reachable(c, s)
    ensures Reachable(c, Next(c, s, a))
  {
    hide Next, Submitted;
    var m: Submission, trace :| m.Valid() && s == Exec(c, Submitted(m), trace);
    assert (trace + [a])[..|trace|] == trace;
    assert Next(c, s, a) == Exec(c, Submitted(m), trace + [a]);
  }

  lemma SubmitKeeps(c: Config, p: Policy, s: Store, command: Command, now: Time)
    requires ValidPolicy(p) && Linked(s) && AllReachable(c, s)
    ensures Linked(Submit(p, s, command, now).1) && AllReachable(c, Submit(p, s, command, now).1)
  {
    hide Next, Submitted, Exec, Reachable, Strip, OwnMessage, OwnResponse, OwnRun, RunsApart;
    if PlaceOf(command) in s.index {
      assert FullyRecorded(s, PlaceOf(command), s.index[PlaceOf(command)]);
    } else {
      hide IndexOk;
      AddedIsLinked(p, s, command, now);
      hide Linked;
      NewRunIsReachable(c, Opened(p, command, s.nextId, now));
    }
  }

  lemma WorkKeepsLinks(s: Store, run: nat, r: Run)
    requires Linked(s) && run in s.runs
    ensures Linked(s.(runs := s.runs[run := r]))
  {
    var s' := s.(runs := s.runs[run := r]);
    assert IndexOk(s') by {
      forall q | q in s'.index ensures FullyRecorded(s', q, s'.index[q]) {
        assert FullyRecorded(s, q, s.index[q]);
      }
    }
    hide FullyRecorded, IndexOk;
    forall m | m in s'.messages ensures OwnMessage(s', m) {
      assert OwnMessage(s, m);
    }
    forall x | x in s'.responses ensures OwnResponse(s', x) {
      assert OwnResponse(s, x);
    }
    hide OwnMessage, OwnResponse;
    forall x | x in s'.runs ensures OwnRun(s', x) {
      assert OwnRun(s, x);
    }
  }

  lemma WorkKeeps(c: Config, s: Store, run: nat, r: Run)
    requires Linked(s) && AllReachable(c, s) && run in s.runs && Reachable(c, r)
    ensures Linked(s.(runs := s.runs[run := r])) && AllReachable(c, s.(runs := s.runs[run := r]))
  {
    WorkKeepsLinks(s, run, r);
    hide Reachable, Linked;
  }

  lemma HappensKeeps(c: Config, p: Policy, s: Store, e: Event)
    requires ValidPolicy(p) && Linked(s) && AllReachable(c, s)
    ensures Linked(Happens(c, p, s, e)) && AllReachable(c, Happens(c, p, s, e))
  {
    match e
    case DoSubmit(command, now) =>
      hide Linked, AllReachable, Submit;
      SubmitKeeps(c, p, s, command, now);
    case DoWork(run, action) =>
      hide Linked, Reachable, Next, Submit;
      if run in s.runs {
        WorkKeepsReachable(c, s.runs[run], action);
        WorkKeeps(c, s, run, Next(c, s.runs[run], action));
      }
  }

  /** However submissions and workflow transitions interleave, each idempotency key has exactly one
      message, one response run and one search run, and every search run is a run the workflow
      model can reach. */
  lemma {:induction false} EverySubmissionOnce(
      c: Config, p: Policy, owners: map<(nat, nat), nat>, es: seq<Event>)
    requires ValidPolicy(p)
    ensures Linked(Replay(c, p, Empty(owners), es)) && AllReachable(c, Replay(c, p, Empty(owners), es))
  {
    if es != [] {
      EverySubmissionOnce(c, p, owners, es[..|es| - 1]);
      hide Linked, AllReachable, Happens;
      HappensKeeps(c, p, Replay(c, p, Empty(owners), es[..|es| - 1]), es[|es| - 1]);
    }
  }

  /** Nothing that happens later changes what a key was used for. */
  predicate KeepsKeys(s: Store, t: Store) {
    && t.owners == s.owners
    && forall q :: q in s.index && FullyRecorded(s, q, s.index[q]) ==>
         q in t.index && t.index[q] == s.index[q] && FullyRecorded(t, q, t.index[q]) &&
         t.messages[t.index[q].message] == s.messages[s.index[q].message]
  }

  lemma AddedKeepsKey(p: Policy, s: Store, c: Command, now: Time, q: Place)
    requires q in s.index && FullyRecorded(s, q, s.index[q]) && PlaceOf(c) != q
    requires s.index[q].message < s.nextId && s.index[q].response < s.nextId
    ensures var s' := Added(p, s, c, now);
      && q in s'.index && s'.index[q] == s.index[q] && FullyRecorded(s', q, s'.index[q])
      && s'.messages[s.index[q].message] == s.messages[s.index[q].message]
  {
    hide Opened, Submitted, Strip;
  }

  lemma AddedKeepsKeys(p: Policy, s: Store, c: Command, now: Time)
    requires Linked(s) && PlaceOf(c) !in s.index
    ensures KeepsKeys(s, Added(p, s, c, now))
  {
    hide Added, RunsApart, OwnRun;
    assert Added(p, s, c, now).owners == s.owners by {
      AddedOwners(p, s, c, now);
    }
    forall q | q in s.index && FullyRecorded(s, q, s.index[q])
      ensures var s' := Added(p, s, c, now);
        && q in s'.index && s'.index[q] == s.index[q] && FullyRecorded(s', q, s'.index[q])
        && s'.messages[s.index[q].message] == s.messages[s.index[q].message]
    {
      assert OwnMessage(s, s.index[q].message) && OwnResponse(s, s.index[q].response);
      AddedKeepsKey(p, s, c, now, q);
    }
    hide Linked, FullyRecorded;
  }

  lemma AddedOwners(p: Policy, s: Store, c: Command, now: Time)
    ensures Added(p, s, c, now).owners == s.owners
  {
  }

  lemma HappensKeepsKeys(c: Config, p: Policy, s: Store, e: Event)
    requires Linked(s)
    ensures KeepsKeys(s, Happens(c, p, s, e))
  {
    hide Next, Submitted, Strip, OwnMessage, OwnResponse, OwnRun, RunsApart;
    if e.DoSubmit? {
      if PlaceOf(e.command) in s.index {
        assert FullyRecorded(s, PlaceOf(e.command), s.index[PlaceOf(e.command)]);
      } else {
        hide IndexOk;
        AddedKeepsKeys(p, s, e.command, e.now);
        hide Added, Linked;
      }
    }
  }

  lemma {:induction false} ReplayKeepsKeys(c: Config, p: Policy, s: Store, es: seq<Event>)
    requires ValidPolicy(p) && Linked(s) && AllReachable(c, s)
    ensures KeepsKeys(s, Replay(c, p, s, es))
    ensures Linked(Replay(c, p, s, es)) && AllReachable(c, Replay(c, p, s, es))
  {
    if es != [] {
      ReplayKeepsKeys(c, p, s, es[..|es| - 1]);
      var t := Replay(c, p, s, es[..|es| - 1]);
      hide Linked, AllReachable, Happens, FullyRecorded;
      HappensKeepsKeys(c, p, t, es[|es| - 1]);
      HappensKeeps(c, p, t, es[|es| - 1]);
    }
  }

  /** Submitting again under the same key, however much later: the same content gets the same
      identifiers back, other content is refused, and either way nothing is created. */
  lemma RepeatIsIdempotent(
      c: Config, p: Policy, s: Store, first: Command, now: Time, es: seq<Event>, again: Command, later: Time)
    requires ValidPolicy(p) && Linked(s) && AllReachable(c, s) && Submit(p, s, first, now).0.Ok?
    requires Acceptable(again) && again.policyVersion == p.version && again.user == first.user
    requires again.tenant == first.tenant && again.conversation == first.conversation && PlaceOf(again) == PlaceOf(first)
    ensures var t := Replay(c, p, Submit(p, s, first, now).1, es);
      var r := Submit(p, t, again, later);
      && r.1 == t
      && if Strip(again.content) == Strip(first.content)
         then r.0.Ok? && r.0.value.duplicate && r.0.value.ids == Submit(p, s, first, now).0.value.ids
         else r.0 == Err(IdempotencyConflict)
  {
    var s1 := Submit(p, s, first, now).1;
    SubmitKeeps(c, p, s, first, now);
    FirstIsKept(p, s, first, now);
    ReplayKeepsKeys(c, p, s1, es);
    var t := Replay(c, p, s1, es);
    hide Linked, AllReachable, Replay;
    KeptKey(s1, t, PlaceOf(first));
    hide *;
    SubmittedAgain(p, t, again, later);
  }

  lemma KeptKey(s: Store, t: Store, q: Place)
    requires KeepsKeys(s, t) && q in s.index && FullyRecorded(s, q, s.index[q])
    ensures q in t.index && t.index[q] == s.index[q] && FullyRecorded(t, q, t.index[q])
    ensures s.index[q].message in s.messages && s.index[q].message in t.messages
    ensures t.messages[s.index[q].message] == s.messages[s.index[q].message] && t.owners == s.owners
  {
  }

  /** What a submission under a key in use answers. */
  lemma SubmittedAgain(p: Policy, t: Store, again: Command, later: Time)
    requires Acceptable(again) && again.policyVersion == p.version
    requires (again.tenant, again.conversation) in t.owners && t.owners[(again.tenant, again.conversation)] == again.user
    requires PlaceOf(again) in t.index && FullyRecorded(t, PlaceOf(again), t.index[PlaceOf(again)])
    ensures t.index[PlaceOf(again)].message in t.messages
    ensures var r, ids := Submit(p, t, again, later), t.index[PlaceOf(again)];
      && r.1 == t
      && if t.messages[ids.message].content == Strip(again.content)
         then r.0.Ok? && r.0.value.duplicate && r.0.value.ids == ids
         else r.0 == Err(IdempotencyConflict)
  {
    hide Strip, Added;
  }

  lemma FirstIsKept(p: Policy, s: Store, first: Command, now: Time)
    requires Linked(s) && Submit(p, s, first, now).0.Ok?
    ensures var s1, q := Submit(p, s, first, now).1, PlaceOf(first);
      && q in s1.index && FullyRecorded(s1, q, s1.index[q])
      && s1.index[q] == Submit(p, s, first, now).0.value.ids
      && s1.messages[s1.index[q].message].content == Strip(first.content)
      && (first.tenant, first.conversation) in s1.owners
      && s1.owners[(first.tenant, first.conversation)] == first.user
      && PlaceOf(first).tenant == first.tenant && PlaceOf(first).conversation == first.conversation
  {
    hide Submitted, Strip, Opened;
    if PlaceOf(first) in s.index {
      assert FullyRecorded(s, PlaceOf(first), s.index[PlaceOf(first)]);
    }
  }

  // ---------------------------------------------------------------- what one submission does

  /** `t` is `s` without the white space at its ends, and nothing but that is missing. */
  ghost predicate Stripped(s: string, t: string) {
    exists i, j :: 0 <= i <= j <= |s| && t == s[i..j] && SpaceAround(s, i, j)
  }

  predicate SpaceAround(s: string, i: nat, j: nat)
    requires i <= j <= |s|
  {
    && (forall k :: 0 <= k < |s| && (k < i || j <= k) ==> Space(s[k]))
    && (i < j ==> !Space(s[i]) && !Space(s[j - 1]))
  }

  lemma StrippedFront(s: string, t: string)
    requires s != [] && Space(s[0]) && Stripped(s[1..], t)
    ensures Stripped(s, t)
  {
    var rest := s[1..];
    var i, j :| 0 <= i <= j <= |rest| && t == rest[i..j] && SpaceAround(rest, i, j);
    assert s[i + 1..j + 1] == rest[i..j];
    forall k | 0 <= k < |s| && (k < i + 1 || j + 1 <= k) ensures Space(s[k]) {
      if k > 0 { assert rest[k - 1] == s[k]; }
    }
    assert SpaceAround(s, i + 1, j + 1);
  }

  lemma StrippedBack(s: string, t: string)
    requires s != [] && Space(s[|s| - 1]) && Stripped(s[..|s| - 1], t)
    ensures Stripped(s, t)
  {
    var rest := s[..|s| - 1];
    var i, j :| 0 <= i <= j <= |rest| && t == rest[i..j] && SpaceAround(rest, i, j);
    assert s[i..j] == rest[i..j];
    forall k | 0 <= k < |s| && (k < i || j <= k) ensures Space(s[k]) {
      if k < |rest| { assert rest[k] == s[k]; }
    }
    assert SpaceAround(s, i, j);
  }

  lemma {:induction false} StripIs(s: string)
    ensures Stripped(s, Strip(s))
    decreases |s|
  {
    hide Space;
    if s == [] {
      assert s == s[0..0] && SpaceAround(s, 0, 0);
    } else if Space(s[0]) {
      hide Stripped;
      StripIs(s[1..]);
      StrippedFront(s, Strip(s[1..]));
    } else if Space(s[|s| - 1]) {
      hide Stripped;
      StripIs(s[..|s| - 1]);
      StrippedBack(s, Strip(s[..|s| - 1]));
    } else {
      assert s == s[0..|s|] && SpaceAround(s, 0, |s|);
    }
  }

  /** The command names a conversation of its own user, is not blank, has a usable key, and was made
      under the policy in force. */
  predicate MaySubmit(p: Policy, s: Store, c: Command) {
    && Strip(c.content) != [] && 1 <= |Strip(c.key)| <= 200
    && c.policyVersion == p.version
    && (c.tenant, c.conversation) in s.owners && s.owners[(c.tenant, c.conversation)] == c.user
  }

  /** The run is fresh: its mode and deadlines are those of the command's mode, and its only step is a
      READY route step, waiting to be delivered, whose input is the message. */
  predicate OpensRun(p: Policy, c: Command, message: nat, now: Time, r: Run) {
    var budget := match c.mode case Fast => p.fast case Research => p.research;
    && r.status == RunQueued && r.mode == c.mode && r.outcome == None && r.usage == NoUsage
    && r.soft == now + budget.softSeconds && r.hard == now + budget.hardSeconds && r.reserve == budget.reserve
    && r.steps.Keys == {Route} && r.order == [Route] && r.unpublished == {Route}
    && r.steps[Route].status == Ready && r.steps[Route].input == Message(message) && r.steps[Route].attempts == []
  }

  /** A submission under a new key stores its message, the response run that answers it and a run that
      starts from it, under identifiers nothing else has, and touches no other row. */
  lemma NewKeyOpensRun(p: Policy, s: Store, c: Command, now: Time)
    requires Linked(s) && MaySubmit(p, s, c) && Place(c.tenant, c.conversation, Strip(c.key)) !in s.index
    ensures var (r, t) := Submit(p, s, c, now);
      var place := Place(c.tenant, c.conversation, Strip(c.key));
      && r.Ok? && !r.value.duplicate && r.value.status == RunQueued && r.value.content == Strip(c.content)
      && var ids := r.value.ids;
         && ids.message !in s.messages && ids.response !in s.responses && ids.run !in s.runs
         && t.owners == s.owners && t.index == s.index[place := ids]
         && t.messages == s.messages[ids.message := UserMessage(place, c.user, Strip(c.content))]
         && t.responses == s.responses[ids.response := ids.message]
         && t.runs == s.runs[ids.run := t.runs[ids.run]] && OpensRun(p, c, ids.message, now, t.runs[ids.run])
  {
    IdsAreBelow(s);
    hide Strip, Space, Linked;
  }

  lemma IdsAreBelow(s: Store)
    requires Linked(s)
    ensures forall m :: m in s.messages ==> m < s.nextId
    ensures forall r :: r in s.responses ==> r < s.nextId
    ensures forall x :: x in s.runs ==> x < s.nextId
  {
    forall m | m in s.messages ensures m < s.nextId {
      assert OwnMessage(s, m);
    }
    forall r | r in s.responses ensures r < s.nextId {
      assert OwnResponse(s, r);
    }
    forall x | x in s.runs ensures x < s.nextId {
      assert OwnRun(s, x);
    }
  }

  /** Everything else creates nothing: a command that may not be submitted is refused, and so is other
      content under a key in use. */
  lemma OtherwiseNothingIsStored(p: Policy, s: Store, c: Command, now: Time)
    requires Linked(s)
    ensures var (r, t) := Submit(p, s, c, now);
      var place := Place(c.tenant, c.conversation, Strip(c.key));
      && (!MaySubmit(p, s, c) ==> t == s && r.Err? && r.error != IdempotencyConflict)
      && (MaySubmit(p, s, c) && place in s.index ==>
            && s.index[place].message in s.messages && t == s
            && (r.Ok? <==> s.messages[s.index[place].message].content == Strip(c.content))
            && (r.Ok? ==> r.value.ids == s.index[place] && r.value.duplicate)
            && (r.Err? ==> r.error == IdempotencyConflict))
  {
    hide Strip, Space, RunsApart, OwnMessage, OwnResponse, OwnRun, Added;
    var place := Place(c.tenant, c.conversation, Strip(c.key));
    if place in s.index {
      assert FullyRecorded(s, place, s.index[place]);
    }
  }

  // ---------------------------------------------------------------- the service

  class ConversationService {
    const policy: Policy
    var owners: map<(nat, nat), nat>
    var index: map<Place, Ids>
    var messages: map<nat, UserMessage>
    var responses: map<nat, nat>
    var runs: map<nat, Run>
    var nextId: nat

    function Now(): Store
      reads this
    {
      Store(owners, index, messages, responses, runs, nextId)
    }

    constructor (policy: Policy, owners: map<(nat, nat), nat>)
      ensures this.policy == policy && Now() == Empty(owners)
    {
      this.policy, this.owners := policy, owners;
      index, messages, responses, runs, nextId := map[], map[], map[], map[], 0;
    }

    method SubmitMessage(command: Command, now: Time) returns (r: Result<Receipt, Error>)
      requires Linked(Now())
      modifies this
      ensures (r, Now()) == Submit(policy, old(Now()), command, now)
    {
      hide Strip, Opened, Submitted;
      if !Acceptable(command) {
        return Err(BadCommand);
      }
      if command.policyVersion != policy.version {
        return Err(PolicyMismatch);
      }
      if (command.tenant, command.conversation) !in owners || owners[(command.tenant, command.conversation)] != command.user {
        return Err(ConversationNotFound);
      }
      var place, content := PlaceOf(command), Strip(command.content);
      if place in index {
        var ids := index[place];
        assert FullyRecorded(Now(), place, ids);
        if messages[ids.message].content != content {
          return Err(IdempotencyConflict);
        }
        return Ok(Receipt(ids, runs[ids.run].status, true, content));
      }
      hide Linked;
      var ids := Ids(nextId, nextId + 1, nextId + 2);
      index := index[place := ids];
      messages := messages[ids.message := UserMessage(place, command.user, content)];
      responses := responses[ids.response := ids.message];
      runs := runs[ids.run := Submitted(Opened(policy, command, ids.message, now))];
      nextId := nextId + 3;
      r := Ok(Receipt(ids, RunQueued, false, content));
    }
  }
}
