/**
 Where the release engine falls short of what its comments promise, each with the
 run that shows it and the condition under which the promise does hold.
 */
module ReleaseFindings {
  import opened Wrappers
  import opened ReleaseStates
  import opened ReleaseProtocol
  import opened ReleaseInvariant
  import opened ReleaseRuns
  import opened ReleasePolls

  /** Some run leads from one state to the other. */
  ghost predicate Leads(s: State, s': State) {
    exists events :: IsRun(s, events) && Exec(s, events) == s'
  }

  lemma LeadsNowhere(s: State)
    ensures Leads(s, s)
  {
    assert IsRun(s, []) && Exec(s, []) == s;
  }

  lemma LeadsOn(s0: State, s: State, e: Event, s': State)
    requires Leads(s0, s) && Enabled(s, e) && Apply(s, e) == s'
    ensures Leads(s0, s')
  {
    var events :| IsRun(s0, events) && Exec(s0, events) == s;
    RunSnoc(s0, events, e);
  }

  /** Some run from a newly created release ends here. */
  ghost predicate Reachable(s: State) {
    Leads(CREATED, s)
  }

  lemma Then(s: State, e: Event, s': State)
    requires Reachable(s) && Enabled(s, e) && Apply(s, e) == s'
    ensures Reachable(s')
  {
    LeadsOn(CREATED, s, e, s');
  }

  // ── A pause can strand a release ───────────────────────────────────────────

  /** No handler, operator or agent ever adds a forward token. */
  lemma TokensNeverGrow(s: State, e: Event)
    requires Inv(s) && Enabled(s, e)
    ensures Tokens(Apply(s, e).queue) <= Tokens(s.queue)
  {
    if Delivery(e) {
      assert s.queue[e.at] in s.queue;
      DeliveryAdds(s, e);
      AddedIsSmall(s, e);
      TokenExchange(s.queue, e.at, Added(s, e));
    } else if e.ERollback? {
      TokensAppend(s.queue, Sent(RollbackMsg(ROLLBACK_RETRIES), e.sent));
    }
  }

  lemma TokenExchange(q: seq<Message>, at: nat, added: seq<Message>)
    requires at < |q| && |added| <= 1 && (added != [] && Forward(added[0]) ==> Forward(q[at]))
    ensures Tokens(Take(q, at) + added) <= Tokens(q)
  {
    TokensTake(q, at, added);
    assert added != [] ==> added == [added[0]];
  }

  /** A release that has not succeeded and has no forward token left. */
  predicate Stranded(s: State) {
    Tokens(s.queue) == 0 && s.row.status != Status.Succeeded
  }

  lemma StrandedStep(s: State, e: Event)
    requires Inv(s) && Enabled(s, e) && Stranded(s)
    ensures Stranded(Apply(s, e)) && Apply(s, e).settlements == s.settlements
  {
    TokensNeverGrow(s, e);
    assert forall i :: 0 <= i < |s.queue| ==> !Forward(s.queue[i]) by {
      if i :| 0 <= i < |s.queue| && Forward(s.queue[i]) {
        TokensMember(s.queue, s.queue[i]);
      }
    }
    StrandedRow(s, e);
  }

  lemma StrandedRow(s: State, e: Event)
    requires Enabled(s, e) && s.row.status != Status.Succeeded
    requires forall i :: 0 <= i < |s.queue| ==> !Forward(s.queue[i])
    ensures Apply(s, e).row.status != Status.Succeeded && Apply(s, e).settlements == s.settlements
  {
    if e.EFinalizeSettle? {
      assert Apply(s, e) == SettleWhole(s, e.at);
    }
  }

  /** A release without a forward token never settles another shard and never succeeds. */
  lemma {:induction false} StrandedForever(s: State, events: seq<Event>)
    requires Inv(s) && Stranded(s) && IsRun(s, events)
    ensures Stranded(Exec(s, events)) && Exec(s, events).settlements == s.settlements
    decreases |events|
  {
    if events != [] {
      StrandedStep(s, events[0]);
      StepKeepsInv(s, events[0]);
      StrandedForever(Apply(s, events[0]), events[1..]);
    }
  }

  const TRAIL := [Edge(Pending, Planning), Edge(Planning, Ready), Edge(Ready, Executing)]

  /** A planned release of `k` shards with one domain each, about to be built. */
  function JustPlanned(k: nat): State {
    State(Row(Planning, TRAIL[..1]), None, seq(k, _ => Shard(ShardPending, 1, [], 0, 0)), [],
          Some(k), 0, 0, [BuildMsg(BUILD_RETRIES)], [])
  }

  function Dispatching(k: nat): State {
    JustPlanned(k).(row := Row(Executing, TRAIL), artifact := Some(7), queue := [DispatchBody(1, DISPATCH_RETRIES, Some(7))])
  }

  /** The first shard runs one agent task in the given status; Finalize is queued. */
  function Started(k: nat, st: TaskStatus): State
    requires k > 0
  {
    var s := Dispatching(k);
    s.(shards := s.shards[0 := Shard(ShardRunning, 1, [AgentTask(5, st)], 0, 0)], queue := [FinalizeMsg(1, 0, false)])
  }

  lemma {:induction false} OnesSum(sizes: seq<nat>)
    requires forall i :: 0 <= i < |sizes| ==> sizes[i] == 1
    ensures Sum(sizes) == |sizes|
  {
    if sizes != [] {
      OnesSum(sizes[1..]);
    }
  }

  lemma PlannedIsReachable(k: nat)
    requires k > 0
    ensures Reachable(JustPlanned(k))
  {
    LeadsNowhere(CREATED);
    var s1 := CREATED.(row := Row(Planning, TRAIL[..1]), queue := [PlanBody(PLAN_RETRIES)]);
    Then(CREATED, EPlanStart(0, true), s1);
    var sizes := seq(k, _ => 1);
    OnesSum(sizes);
    var plan := Planned(sizes, true);
    assert PlanFinish(s1, 0, plan).shards == JustPlanned(k).shards;
    assert PlanFinish(s1, 0, plan).queue == [BuildMsg(BUILD_RETRIES)];
    Then(s1, EPlanFinish(0, plan), JustPlanned(k));
  }

  lemma DispatchingIsReachable(k: nat)
    requires k > 0
    ensures Reachable(Dispatching(k))
  {
    PlannedIsReachable(k);
    var s1 := JustPlanned(k).(row := Row(Ready, TRAIL[..2]), artifact := Some(7), queue := [DispatchMsg(1, DISPATCH_RETRIES)]);
    assert TRAIL[..1] + [Edge(Planning, Ready)] == TRAIL[..2];
    assert TRAIL[..2] + [Edge(Ready, Executing)] == TRAIL;
    Then(JustPlanned(k), EBuild(0, Built(7, true, true)), s1);
    assert DispatchStart(s1, 0, true).queue == Dispatching(k).queue;
    Then(s1, EDispatchStart(0, true), Dispatching(k));
  }

  lemma StartedIsReachable(k: nat, st: TaskStatus)
    requires k > 0
    ensures Reachable(Started(k, st))
  {
    DispatchingIsReachable(k);
    var s, outcome := Dispatching(k), Dispatched([5], true);
    DispatchFinishIs(s, 0, outcome);
    assert PendingTasks([5]) == [AgentTask(5, TaskPending)];
    assert [] + PendingTasks([5]) == [AgentTask(5, TaskPending)];
    Then(s, EDispatchFinish(0, outcome), Started(k, TaskPending));
    var s1 := Started(k, TaskPending);
    var tasks := [AgentTask(5, TaskPending)];
    assert tasks[0 := tasks[0].(status := st)] == [AgentTask(5, st)];
    assert Report(s1, 1, 0, st).shards == Started(k, st).shards;
    Then(s1, EReport(1, 0, st), Started(k, st));
  }

  /** A reachable release that executes, whose only agent task has succeeded, with an empty queue. */
  function StrandedRelease(): State {
    Started(1, TaskSucceeded).(
      row := Row(Executing, TRAIL + [Edge(Executing, Paused), Edge(Paused, Executing)]), queue := [])
  }

  lemma StrandedIsReachable()
    ensures Reachable(StrandedRelease())
  {
    var s := Started(1, TaskSucceeded);
    StartedIsReachable(1, TaskSucceeded);
    var paused := s.(row := Row(Paused, TRAIL + [Edge(Executing, Paused)]));
    Then(s, EPause, paused);
    var dropped := paused.(queue := []);
    Then(paused, EFinalizeCheck(0, true, true), dropped);
    assert TRAIL + [Edge(Executing, Paused)] + [Edge(Paused, Executing)] == StrandedRelease().row.history;
    Then(dropped, EResume, StrandedRelease());
  }

  /** Pausing while a Finalize message is queued, and resuming after it was delivered, leaves a
      release that executes, whose every agent task has succeeded, and that can never succeed. */
  lemma PauseStrandsARelease(later: seq<Event>)
    requires IsRun(StrandedRelease(), later)
    ensures Reachable(StrandedRelease()) && StrandedRelease().row.status == Executing
    ensures AllDone(ReleaseTasks(StrandedRelease()))
    ensures Exec(StrandedRelease(), later).row.status != Status.Succeeded
  {
    var s := StrandedRelease();
    StrandedIsReachable();
    ReachableKeepsInv(s);
    StrandedForever(s, later);
    assert DeployTasks(s.shards) == s.shards[0].tasks + DeployTasks(s.shards[1..]);
  }

  lemma ReachableKeepsInv(s: State)
    requires Reachable(s)
    ensures Inv(s)
  {
    CreatedIsFine();
    LeadsKeepsInv(CREATED, s);
  }

  // ── A failed read can declare success too early ────────────────────────────

  /** The first of `k` shards is about to be settled with its one task succeeded. */
  function Settling(k: nat): State
    requires k > 0
  {
    Started(k, TaskSucceeded).(queue := [SettleBody(1, 0, false, Stats(1, 0, 0, 0, 1))])
  }

  lemma OneTaskCount(t: AgentTask, st: TaskStatus)
    ensures Count([t], st) == if t.status == st then 1 else 0
  {
    assert [t][1..] == [];
  }

  lemma OneTaskStats(agent: int)
    ensures StatsOf([AgentTask(agent, TaskSucceeded)]) == Stats(1, 0, 0, 0, 1)
  {
    forall st {
      OneTaskCount(AgentTask(agent, TaskSucceeded), st);
    }
  }

  lemma SettlingIsReachable(k: nat)
    requires k > 0
    ensures Reachable(Settling(k))
  {
    var s := Started(k, TaskSucceeded);
    StartedIsReachable(k, TaskSucceeded);
    assert ShardTasks(s, 1) == [AgentTask(5, TaskSucceeded)];
    OneTaskStats(5);
    Then(s, EFinalizeCheck(0, true, true), Settling(k));
  }

  lemma SettlesAndMovesOn(k: nat, nextRead: bool)
    requires k > 0
    ensures Reachable(AfterSettle(Settling(k), Settling(k).queue[0], nextRead, true))
  {
    var s, m := Settling(k), Settling(k).queue[0];
    SettlingIsReachable(k);
    ReachableKeepsInv(s);
    ExecutingIsNotRollingBack(s.row);
    SettleShardIs(s, m, true, nextRead, true);
    Then(s, EFinalizeSettle(0, true, nextRead, true), AfterSettle(s, m, nextRead, true));
  }

  /** With two shards, a settlement whose next-shard read fails ends the release as succeeded
      although the second shard was never dispatched. */
  lemma FailedReadSucceedsTooEarly()
    ensures var s := AfterSettle(Settling(2), Settling(2).queue[0], false, true);
            Reachable(s) && s.row.status == Status.Succeeded && |s.shards| == 2 && s.shards[1].status == ShardPending
  {
    SettlesAndMovesOn(2, false);
  }

  /** The one shard of the release is settled as succeeded while the release is paused. */
  function SettledWhilePaused(): State {
    var s := Settling(1);
    AfterSettle(s.(row := Row(Paused, TRAIL + [Edge(Executing, Paused)])), s.queue[0], true, true)
  }

  function StrandedAfterSettling(): State {
    SettledWhilePaused().(row := Row(Executing, TRAIL + [Edge(Executing, Paused), Edge(Paused, Executing)]))
  }

  lemma PausedSettlementIsReachable()
    ensures Reachable(SettledWhilePaused())
  {
    var s := Settling(1);
    SettlingIsReachable(1);
    var paused := s.(row := Row(Paused, TRAIL + [Edge(Executing, Paused)]));
    Then(s, EPause, paused);
    ReachableKeepsInv(paused);
    ExecutingIsNotRollingBack(paused.row);
    SettleShardIs(paused, s.queue[0], true, true, true);
    Then(paused, EFinalizeSettle(0, true, true, true), SettledWhilePaused());
  }

  /** Pausing between the two halves of the last poll strands the release just as well, although it was executing
      when it was polled: it executes again, its every shard has succeeded, nothing is queued, and it can never
      succeed. */
  lemma PauseBeforeSettlementStrandsARelease(later: seq<Event>)
    requires IsRun(StrandedAfterSettling(), later)
    ensures var s := StrandedAfterSettling();
            && Reachable(s) && s.row.status == Executing && s.queue == []
            && |s.shards| == 1 && s.shards[0].status == ShardSucceeded
    ensures Exec(StrandedAfterSettling(), later).row.status != Status.Succeeded
  {
    var paused, s := SettledWhilePaused(), StrandedAfterSettling();
    PausedSettlementIsReachable();
    assert TRAIL + [Edge(Executing, Paused)] + [Edge(Paused, Executing)] == s.row.history;
    Then(paused, EResume, s);
    ReachableKeepsInv(s);
    StrandedForever(s, later);
  }

  // ── A failed deployment cannot be rolled back ──────────────────────────────

  /** Deploy task `k` of shard index `j` ended badly. */
  predicate FailedAt(s: State, j: nat, k: nat) {
    HasTask(s, j, k) && s.shards[j].tasks[k].status in {TaskFailed, TaskTimeout}
  }

  lemma {:induction false} DeployTaskIsListed(shards: seq<Shard>, j: nat, k: nat)
    requires j < |shards| && k < |shards[j].tasks|
    ensures shards[j].tasks[k] in DeployTasks(shards)
  {
    if j > 0 {
      DeployTaskIsListed(shards[1..], j - 1, k);
    }
  }

  /** The release is rolled back, or a rollback settlement that will say so is in progress. */
  ghost predicate CleanRollback(s: State) {
    s.row.status == RolledBack || exists m :: m in s.queue && CleanSettlement(m)
  }

  predicate CleanSettlement(m: Message) {
    m.SettleBody? && m.isRollback && !HasFailed(m.stats, m.retry)
  }

  /** The event is a poll of a rollback that finds every task of the release done. */
  predicate IsCleanPoll(s: State, e: Event) {
    e.EFinalizeCheck? && s.row.status == RollingBack && AllDone(ReleaseTasks(s))
  }

  lemma RolledBackBySettlement(s: State, e: Event)
    requires Enabled(s, e) && s.row.status != RolledBack && Apply(s, e).row.status == RolledBack
    ensures e.EFinalizeSettle? && CleanSettlement(s.queue[e.at])
  {
  }

  lemma CleanSettlementByPoll(s: State, e: Event)
    requires Enabled(s, e) && Delivery(e) && Added(s, e) != [] && CleanSettlement(Added(s, e)[0])
    ensures IsCleanPoll(s, e)
  {
    assert e.EFinalizeCheck?;
    CleanExactlyWhenDone(ReleaseTasks(s));
  }

  lemma CleanRollbackStep(s: State, e: Event)
    requires Inv(s) && Enabled(s, e) && CleanRollback(Apply(s, e))
    ensures CleanRollback(s) || IsCleanPoll(s, e)
  {
    var s' := Apply(s, e);
    if s'.row.status == RolledBack && s.row.status != RolledBack {
      RolledBackBySettlement(s, e);
      assert s.queue[e.at] in s.queue;
    } else if s.row.status != RolledBack {
      var m :| m in s'.queue && CleanSettlement(m);
      if m !in s.queue {
        CleanMessageByPoll(s, e, m);
      }
    }
  }

  lemma CleanMessageByPoll(s: State, e: Event, m: Message)
    requires QueueSound(s) && ArtifactPresent(s) && Enabled(s, e)
    requires m in Apply(s, e).queue && m !in s.queue && CleanSettlement(m)
    ensures IsCleanPoll(s, e)
  {
    if Delivery(e) {
      assert s.queue[e.at] in s.queue;
      DeliveryAdds(s, e);
      AddedIsSmall(s, e);
      NewMessageWasAdded(s.queue, e.at, Added(s, e), m);
      CleanSettlementByPoll(s, e);
    } else {
      OperatorsSendNoSettlement(s, e, m);
    }
  }

  lemma NewMessageWasAdded(q: seq<Message>, at: nat, added: seq<Message>, m: Message)
    requires at < |q| && |added| <= 1 && m in Take(q, at) + added && m !in q
    ensures added == [m]
  {
  }

  lemma OperatorsSendNoSettlement(s: State, e: Event, m: Message)
    requires Enabled(s, e) && !Delivery(e) && m in Apply(s, e).queue && m !in s.queue
    ensures m.RollbackMsg?
  {
  }

  /** A rollback completes only through a poll that found every task of the release, deploy tasks included, succeeded
      or cancelled; in every run. */
  lemma {:induction false} RolledBackNeedsACleanPoll(events: seq<Event>) returns (n: nat)
    requires IsRun(CREATED, events) && CleanRollback(Exec(CREATED, events))
    ensures n < |events| && IsCleanPoll(StateAt(events, n), events[n])
  {
    assert events != [];
    RunUnsnoc(CREATED, events);
    var front, last := events[..|events| - 1], |events| - 1;
    var s := Exec(CREATED, front);
    CreatedIsFine();
    RunKeepsInv(CREATED, front);
    CleanRollbackStep(s, events[last]);
    if CleanRollback(s) {
      n := RolledBackNeedsACleanPoll(front);
      assert front[..n] == events[..n];
    } else {
      n := last;
    }
  }

  lemma RollingBackMeansStarted(r: Row)
    requires ValidRow(r) && r.status == RollingBack
    ensures RollbackStarted(r)
  {
  }

  lemma FailedTaskIsNotDone(s: State, j: nat, k: nat)
    requires FailedAt(s, j, k)
    ensures !AllDone(ReleaseTasks(s))
  {
    DeployTaskIsListed(s.shards, j, k);
    var i :| 0 <= i < |DeployTasks(s.shards)| && DeployTasks(s.shards)[i] == s.shards[j].tasks[k];
    assert ReleaseTasks(s)[i] == s.shards[j].tasks[k];
  }

  /** Polls of a rollback come after its start. */
  lemma CleanPollIsLater(events: seq<Event>, n: nat, b: nat)
    requires IsRun(CREATED, events) && n < |events| && b <= |events| && !RollbackStarted(StateAt(events, b).row)
    requires StateAt(events, n).row.status == RollingBack
    ensures b <= n
  {
    CreatedIsFine();
    PrefixIsRun(CREATED, events, n);
    RunKeepsInv(CREATED, events[..n]);
    RollingBackMeansStarted(StateAt(events, n).row);
    if n < b {
      StartedStaysInRun(events, n, b);
    }
  }

  /** From the start: when a deploy task has failed or timed out before any rollback, the release is reported as
      rolled back only if a later report overwrites the outcome of that very task. */
  lemma DeployFailureRulesOutRolledBack(events: seq<Event>, b: nat, j: nat, k: nat)
    requires IsRun(CREATED, events) && b <= |events|
    requires FailedAt(StateAt(events, b), j, k) && !RollbackStarted(StateAt(events, b).row)
    requires Exec(CREATED, events).row.status == RolledBack
    ensures ReportedSince(events, b, j, k)
  {
    var n := RolledBackNeedsACleanPoll(events);
    CleanPollIsLater(events, n, b);
    ChangedMeansReported(events, b, n, j, k);
    if ReportedSince(events[..n], b, j, k) {
      var i :| b <= i < n && ReportsOn(events[..n][i], j, k);
      assert events[i] == events[..n][i];
    } else {
      FailedTaskIsNotDone(StateAt(events, n), j, k);
    }
  }

  // ── ... unless a report rewrites the failure ───────────────────────────────

  lemma ExecutingIsNotRollingBack(r: Row)
    requires ValidRow(r) && r.status in {Executing, Paused}
    ensures !RollbackStarted(r)
  {
    if RollbackStarted(r) {
      RollbackStartedIsAfterFailure(r);
    }
  }

  /** A release that failed because its only task failed. */
  function FailedRelease(): State {
    var s := Started(1, TaskFailed);
    s.(row := Row(Failed, TRAIL + [Edge(Executing, Failed)]), queue := [],
       shards := [Shard(ShardFailed, 1, [AgentTask(5, TaskFailed)], 0, 1)], failure := 1,
       settlements := [Settlement(1, Stats(0, 1, 0, 0, 1), 0)])
  }

  /** The failed check of that task is about to be settled. */
  function FailedSettling(): State {
    Started(1, TaskFailed).(queue := [SettleBody(1, 0, false, Stats(0, 1, 0, 0, 1))])
  }

  lemma FailedSettlingIsReachable()
    ensures Reachable(FailedSettling())
  {
    var s := Started(1, TaskFailed);
    StartedIsReachable(1, TaskFailed);
    assert ShardTasks(s, 1) == [AgentTask(5, TaskFailed)];
    forall st {
      OneTaskCount(AgentTask(5, TaskFailed), st);
    }
    Then(s, EFinalizeCheck(0, true, true), FailedSettling());
  }

  lemma FailedSettlesTo()
    ensures AfterSettle(FailedSettling(), FailedSettling().queue[0], true, true) == FailedRelease()
  {
    var s := FailedSettling();
    assert Settled(s, s.queue[0]).shards == FailedRelease().shards;
  }

  lemma FailedIsReachable()
    ensures Reachable(FailedRelease())
  {
    var s := FailedSettling();
    FailedSettlingIsReachable();
    ReachableKeepsInv(s);
    ExecutingIsNotRollingBack(s.row);
    SettleShardIs(s, s.queue[0], true, true, true);
    FailedSettlesTo();
    Then(s, EFinalizeSettle(0, true, true, true), FailedRelease());
  }

  /** The rollback of that release is under way, and its deploy task has been reported as succeeded after all. */
  function Rewritten(): State {
    var s := FailedRelease();
    s.(row := Row(RollingBack, s.row.history + [Edge(Failed, RollingBack)]),
       shards := [Shard(ShardFailed, 1, [AgentTask(5, TaskSucceeded)], 0, 1)],
       queue := [RollbackMsg(ROLLBACK_RETRIES)])
  }

  lemma RewrittenFollows()
    ensures Leads(FailedRelease(), Rewritten())
  {
    var s := FailedRelease();
    LeadsNowhere(s);
    var s1 := s.(row := Rewritten().row, queue := Rewritten().queue);
    assert s.queue + [RollbackMsg(ROLLBACK_RETRIES)] == s1.queue;
    LeadsOn(s, s, ERollback(Failed, true, true), s1);
    var tasks := [AgentTask(5, TaskFailed)];
    assert tasks[0 := tasks[0].(status := TaskSucceeded)] == [AgentTask(5, TaskSucceeded)];
    assert Report(s1, 1, 0, TaskSucceeded).shards == Rewritten().shards;
    LeadsOn(s, s1, EReport(1, 0, TaskSucceeded), Rewritten());
  }

  /** Its rollback task has succeeded too; the rollback's poll is queued. */
  function RewrittenPoll(): State {
    Rewritten().(rollbackTasks := [AgentTask(5, TaskSucceeded)], queue := [FinalizeMsg(0, 0, true)])
  }

  lemma RewrittenPollFollows()
    ensures Leads(FailedRelease(), RewrittenPoll())
  {
    var s0, s, t := FailedRelease(), Rewritten(), AgentTask(5, TaskSucceeded);
    RewrittenFollows();
    assert DeployTasks(s.shards) == s.shards[0].tasks + DeployTasks(s.shards[1..]) == [t];
    assert ReleaseTasks(s) == [t];
    assert Agents([t]) == [5] by {
      assert [t][..0] == [];
    }
    assert DomainRows(s.shards) == 1 + DomainRows(s.shards[1..]);
    assert CreateRollbackTasks([], [5], {5}) == [AgentTask(5, TaskPending)] by {
      assert [5][1..] == [] && Agents([]) == [];
    }
    var s1 := s.(rollbackTasks := [AgentTask(5, TaskPending)], queue := [FinalizeMsg(0, 0, true)]);
    LeadsOn(s0, s, ERollbackExec(0, RollbackRun([], {5}, true)), s1);
    LeadsOn(s0, s1, EReport(0, 0, TaskSucceeded), RewrittenPoll());
  }

  /** A rollback whose poll finds everything done ends as rolled back. */
  lemma CleanPollRollsBack(s0: State, p: State) returns (s: State)
    requires Leads(s0, p) && Inv(p) && |p.queue| == 1 && p.queue[0].FinalizeMsg? && p.queue[0].isRollback
    requires p.row.status == RollingBack && AllDone(ReleaseTasks(p))
    ensures Leads(s0, s) && s.row.status == RolledBack
  {
    CleanExactlyWhenDone(ReleaseTasks(p));
    var s1 := FinalizeCheck(p, 0, true, true);
    LeadsOn(s0, p, EFinalizeCheck(0, true, true), s1);
    RolledBackExactlyWhenAllDone(p, 0, [], true);
    s := FinalizeSettle(s1, |s1.queue| - 1, true, true, true);
    LeadsOn(s0, s1, EFinalizeSettle(|s1.queue| - 1, true, true, true), s);
  }

  lemma LeadsKeepsInv(s: State, s': State)
    requires Inv(s) && Leads(s, s')
    ensures Inv(s')
  {
    var events :| IsRun(s, events) && Exec(s, events) == s';
    RunKeepsInv(s, events);
  }

  lemma RewrittenIsDone()
    ensures AllDone(ReleaseTasks(RewrittenPoll()))
  {
    var p := RewrittenPoll();
    assert DeployTasks(p.shards) == p.shards[0].tasks + DeployTasks(p.shards[1..]);
  }

  /** The exception is real: a failed release whose deploy task is reported again can end as rolled back. */
  lemma RewrittenFailureRollsBack() returns (s: State)
    ensures Reachable(FailedRelease()) && FailedAt(FailedRelease(), 0, 0)
    ensures Leads(FailedRelease(), s) && s.row.status == RolledBack
  {
    var s0, p := FailedRelease(), RewrittenPoll();
    FailedIsReachable();
    ReachableKeepsInv(s0);
    RewrittenPollFollows();
    LeadsKeepsInv(s0, p);
    RewrittenIsDone();
    s := CleanPollRollsBack(s0, p);
  }
}
