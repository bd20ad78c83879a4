/**
 What single steps of the release engine do to tasks, shards and messages, said of the
 rows themselves rather than of the functions that compute them.
 */
module ReleaseEffects {
  import opened Wrappers
  import opened Collections
  import opened ReleaseStates
  import opened ReleaseProtocol

  // ── Tasks ──────────────────────────────────────────────────────────────────

  lemma {:induction false} DeployTasksAre(shards: seq<Shard>, t: AgentTask)
    ensures t in DeployTasks(shards) <==> exists j :: 0 <= j < |shards| && t in shards[j].tasks
  {
    if shards != [] {
      DeployTasksAre(shards[1..], t);
      if j :| 0 <= j < |shards[1..]| && t in shards[1..][j].tasks {
        assert shards[j + 1] == shards[1..][j];
      }
      if j :| 0 <= j < |shards| && t in shards[j].tasks && j > 0 {
        assert shards[1..][j - 1] == shards[j];
      }
    }
  }

  /** The tasks of a release are the deploy tasks of its shards and its rollback tasks. */
  lemma ReleaseTasksAre(s: State, t: AgentTask)
    ensures t in ReleaseTasks(s) <==> t in s.rollbackTasks || exists j :: 0 <= j < |s.shards| && t in s.shards[j].tasks
  {
    DeployTasksAre(s.shards, t);
  }

  lemma {:induction false} CountSnoc(tasks: seq<AgentTask>, t: AgentTask, st: TaskStatus)
    ensures Count(tasks + [t], st) == Count(tasks, st) + if t.status == st then 1 else 0
  {
    if tasks != [] {
      CountSnoc(tasks[1..], t, st);
      assert (tasks + [t])[1..] == tasks[1..] + [t];
    } else {
      assert (tasks + [t])[1..] == [];
    }
  }

  /** The positions of the tasks in the given status. */
  function Having(tasks: seq<AgentTask>, st: TaskStatus): set<nat> {
    set k: nat | k < |tasks| && tasks[k].status == st
  }

  lemma {:induction false} CountIsHaving(tasks: seq<AgentTask>, st: TaskStatus)
    ensures Count(tasks, st) == |Having(tasks, st)|
  {
    if tasks != [] {
      var n := |tasks| - 1;
      CountIsHaving(tasks[..n], st);
      assert tasks == tasks[..n] + [tasks[n]];
      CountSnoc(tasks[..n], tasks[n], st);
      HavingSnoc(tasks, st);
    }
  }

  lemma HavingSnoc(tasks: seq<AgentTask>, st: TaskStatus)
    requires tasks != []
    ensures var n := |tasks| - 1;
            |Having(tasks, st)| == |Having(tasks[..n], st)| + if tasks[n].status == st then 1 else 0
  {
    var n := |tasks| - 1;
    var front := Having(tasks[..n], st);
    assert Having(tasks, st) == if tasks[n].status == st then front + {n} else front;
  }

  /** The statistics are the numbers of tasks in each status; pending, claimed and running tasks are in progress. */
  lemma StatsMean(tasks: seq<AgentTask>)
    ensures var stats := StatsOf(tasks);
            && stats.succeeded == |set k: nat | k < |tasks| && tasks[k].status == TaskSucceeded|
            && stats.failed == |set k: nat | k < |tasks| && tasks[k].status == TaskFailed|
            && stats.timeout == |set k: nat | k < |tasks| && tasks[k].status == TaskTimeout|
            && stats.inProgress == |set k: nat | k < |tasks| && tasks[k].status in {TaskPending, TaskClaimed, TaskRunning}|
            && stats.total == |tasks|
  {
    CountIsHaving(tasks, TaskSucceeded);
    CountIsHaving(tasks, TaskFailed);
    CountIsHaving(tasks, TaskTimeout);
    CountIsHaving(tasks, TaskPending);
    CountIsHaving(tasks, TaskClaimed);
    CountIsHaving(tasks, TaskRunning);
    var p, c, r := Having(tasks, TaskPending), Having(tasks, TaskClaimed), Having(tasks, TaskRunning);
    assert |p + c + r| == |p| + |c| + |r|;
    assert (set k: nat | k < |tasks| && tasks[k].status in {TaskPending, TaskClaimed, TaskRunning}) == p + c + r;
  }

  // ── Rollbacks ──────────────────────────────────────────────────────────────

  lemma {:induction false} AgentsOfTasks(tasks: seq<AgentTask>, a: int)
    ensures a in Agents(tasks) <==> exists i :: 0 <= i < |tasks| && tasks[i].agent == a
  {
    if tasks != [] {
      var n := |tasks| - 1;
      AgentsOfTasks(tasks[..n], a);
      if i :| 0 <= i < |tasks| && tasks[i].agent == a {
        assert i < n ==> tasks[..n][i] == tasks[i];
      }
    }
  }

  lemma {:induction false} AgentsAreDistinct(tasks: seq<AgentTask>)
    ensures Distinct(Agents(tasks))
  {
    if tasks != [] {
      AgentsAreDistinct(tasks[..|tasks| - 1]);
    }
  }

  /** The rollback tasks after a fan-out: the old ones and one pending task for each agent that can be inserted and has
      none yet. */
  lemma {:induction false} FanOutReaches(existing: seq<AgentTask>, agents: seq<int>, createOk: set<int>)
    ensures var after := CreateRollbackTasks(existing, agents, createOk);
            && existing <= after
            && (forall k :: |existing| <= k < |after| ==>
                  && after[k].status == TaskPending && after[k].agent in agents && after[k].agent in createOk
                  && forall i :: 0 <= i < k ==> after[i].agent != after[k].agent)
            && (forall a :: a in agents && a in createOk ==> exists k :: 0 <= k < |after| && after[k].agent == a)
    decreases |agents|
  {
    if agents != [] {
      var a := agents[0];
      var next := if a in createOk && a !in Agents(existing) then existing + [AgentTask(a, TaskPending)] else existing;
      AgentsOfTasks(existing, a);
      FanOutReaches(next, agents[1..], createOk);
      var after := CreateRollbackTasks(existing, agents, createOk);
      if a in createOk {
        var k :| 0 <= k < |next| && next[k].agent == a;
        assert after[k] == next[k];
      }
    }
  }

  /** The release has an agent task. */
  predicate HasAnyTask(s: State) {
    s.rollbackTasks != [] || exists j :: 0 <= j < |s.shards| && s.shards[j].tasks != []
  }

  predicate HasDomains(s: State) {
    exists j :: 0 <= j < |s.shards| && s.shards[j].domains > 0
  }

  /** The agents a rollback is meant for: those of the release's tasks, or all online ones if it has none. */
  predicate Meant(s: State, online: seq<int>, a: int) {
    if HasAnyTask(s)
    then (exists k :: 0 <= k < |s.rollbackTasks| && s.rollbackTasks[k].agent == a)
         || exists j, k :: 0 <= j < |s.shards| && 0 <= k < |s.shards[j].tasks| && s.shards[j].tasks[k].agent == a
    else a in online
  }

  lemma {:induction false} DomainRowsAre(shards: seq<Shard>)
    ensures DomainRows(shards) > 0 <==> exists j :: 0 <= j < |shards| && shards[j].domains > 0
  {
    if shards != [] {
      DomainRowsAre(shards[1..]);
      if j :| 0 <= j < |shards[1..]| && shards[1..][j].domains > 0 {
        assert shards[j + 1].domains > 0;
      }
      if j :| 0 < j < |shards| && shards[j].domains > 0 {
        assert shards[1..][j - 1].domains > 0;
      }
    }
  }

  lemma HasTasks(s: State)
    ensures Agents(ReleaseTasks(s)) != [] <==> HasAnyTask(s)
  {
    var tasks := ReleaseTasks(s);
    if tasks != [] {
      AgentsOfTasks(tasks, tasks[0].agent);
      ReleaseTasksAre(s, tasks[0]);
    }
    if HasAnyTask(s) && s.rollbackTasks == [] {
      var j :| 0 <= j < |s.shards| && s.shards[j].tasks != [];
      ReleaseTasksAre(s, s.shards[j].tasks[0]);
    }
  }

  /** Which agents have a task of the release. */
  lemma InvolvedAre(s: State, a: int)
    ensures a in Agents(ReleaseTasks(s)) <==>
              || (exists k :: 0 <= k < |s.rollbackTasks| && s.rollbackTasks[k].agent == a)
              || exists j, k :: 0 <= j < |s.shards| && 0 <= k < |s.shards[j].tasks| && s.shards[j].tasks[k].agent == a
  {
    var tasks := ReleaseTasks(s);
    AgentsOfTasks(tasks, a);
    if a in Agents(tasks) {
      var i :| 0 <= i < |tasks| && tasks[i].agent == a;
      ReleaseTasksAre(s, tasks[i]);
    }
    if k :| 0 <= k < |s.rollbackTasks| && s.rollbackTasks[k].agent == a {
      assert s.rollbackTasks[k] in tasks;
    }
    if j, k :| 0 <= j < |s.shards| && 0 <= k < |s.shards[j].tasks| && s.shards[j].tasks[k].agent == a {
      ReleaseTasksAre(s, s.shards[j].tasks[k]);
    }
  }

  /** A rollback execution that finds agents and domains gives every agent it is meant for a rollback task of its own:
      the rows already there stay, each row it adds is a pending task of such an agent that had none, and no agent
      whose insert goes through is left out. */
  lemma RollbackTellsEveryAgent(s: State, at: nat, online: seq<int>, createOk: set<int>, sent: bool)
    requires at < |s.queue| && s.queue[at].RollbackMsg? && s.row.status == RollingBack
    requires HasDomains(s) && (HasAnyTask(s) || online != [])
    ensures var s' := RollbackExec(s, at, RollbackRun(online, createOk, sent));
            && s.rollbackTasks <= s'.rollbackTasks
            && (forall k :: |s.rollbackTasks| <= k < |s'.rollbackTasks| ==>
                  && s'.rollbackTasks[k].status == TaskPending
                  && Meant(s, online, s'.rollbackTasks[k].agent) && s'.rollbackTasks[k].agent in createOk
                  && forall i :: 0 <= i < k ==> s'.rollbackTasks[i].agent != s'.rollbackTasks[k].agent)
            && (forall a :: Meant(s, online, a) && a in createOk ==>
                  exists k :: 0 <= k < |s'.rollbackTasks| && s'.rollbackTasks[k].agent == a)
            && s' == s.(rollbackTasks := s'.rollbackTasks, queue := s'.queue)
            && s'.queue == s.queue[..at] + s.queue[at + 1..] + (if sent then [FinalizeMsg(0, 0, true)] else [])
  {
    HasTasks(s);
    DomainRowsAre(s.shards);
    var involved := Agents(ReleaseTasks(s));
    var agents := if involved != [] then involved else online;
    forall a
      ensures a in agents <==> Meant(s, online, a)
    {
      InvolvedAre(s, a);
    }
    FanOutReaches(s.rollbackTasks, agents, createOk);
  }

  // ── Status ─────────────────────────────────────────────────────────────────

  /** Some task of the settled statistics failed or timed out, or was still unfinished at poll number 360. */
  predicate Unclean(m: Message)
    requires m.SettleBody?
  {
    m.stats.failed > 0 || m.stats.timeout > 0 || (m.stats.inProgress > 0 && m.retry >= 360)
  }

  /** No other shard above the settled one is still pending, or the read that looks for one fails. */
  predicate NoneNext(s: State, m: Message, currentRead: bool, nextRead: bool)
    requires m.SettleBody?
  {
    !nextRead
    || forall k :: (if currentRead && 1 <= m.shard <= |s.shards| then m.shard - 1 else 0) < k < |s.shards| ==>
         k == m.shard - 1 || s.shards[k].status != ShardPending
  }

  /** The move a step makes on the status column, if any. */
  function Move(s: State, e: Event): Option<(Status, Status)>
    requires Enabled(s, e)
  {
    match e
    case EPlanStart(_, readOk) => if readOk then Some((Pending, Planning)) else None
    case EPlanFinish(_, plan) => if plan.PlanAborted? then Some((Planning, Failed)) else None
    case EBuild(_, build) => if build.Built? then Some((Planning, Ready)) else None
    case EDispatchStart(_, readOk) => if readOk then Some((Ready, Executing)) else None
    case EFinalizeSettle(at, currentRead, nextRead, _) =>
      var m := s.queue[at];
      if m.isRollback then Some((RollingBack, if Unclean(m) then Failed else RolledBack))
      else if Unclean(m) then Some((Executing, Failed))
      else if m.shard == 0 || NoneNext(s, m, currentRead, nextRead) then Some((Executing, Status.Succeeded))
      else None
    case ERollbackExec(_, rollback) =>
      if rollback.RollbackRun? && !HasAnyTask(s) && rollback.online == [] then Some((RollingBack, Failed)) else None
    case EPause => Some((Executing, Paused))
    case EResume => Some((Paused, Executing))
    case ECancel(seen) => if seen in {Pending, Planning, Ready, Paused, Failed} then Some((seen, Cancelled)) else None
    case ERollback(seen, previousExists, _) =>
      if seen in {Paused, Failed} && previousExists then Some((seen, RollingBack)) else None
    case _ => None
  }

  lemma {:induction false} NextPendingIs(shards: seq<Shard>, after: nat)
    ensures NextPending(shards, after).None? <==> forall k :: after < k < |shards| ==> shards[k].status != ShardPending
    ensures NextPending(shards, after).Some? ==>
              var n := NextPending(shards, after).value;
              after < n < |shards| && shards[n].status == ShardPending && forall k :: after < k < n ==> shards[k].status != ShardPending
    decreases |shards| - after
  {
    if after + 1 < |shards| {
      NextPendingIs(shards, after + 1);
    }
  }

  lemma NoneNextIs(s: State, m: Message, currentRead: bool, nextRead: bool)
    requires m.SettleBody? && !HasFailed(m.stats, m.retry)
    ensures var after := if currentRead && 1 <= m.shard <= |s.shards| then m.shard - 1 else 0;
            NoneNext(s, m, currentRead, nextRead) <==> !nextRead || NextPending(Settled(s, m).shards, after).None?
  {
    var after := if currentRead && 1 <= m.shard <= |s.shards| then m.shard - 1 else 0;
    var shards := Settled(s, m).shards;
    NextPendingIs(shards, after);
    assert forall k :: 0 <= k < |shards| ==> (shards[k].status != ShardPending <==> k == m.shard - 1 || s.shards[k].status != ShardPending);
  }

  lemma SettleMoves(s: State, at: nat, currentRead: bool, nextRead: bool, sent: bool)
    requires at < |s.queue| && s.queue[at].SettleBody?
    ensures MovesAs(s, FinalizeSettle(s, at, currentRead, nextRead, sent), Move(s, EFinalizeSettle(at, currentRead, nextRead, sent)))
  {
    if !HasFailed(s.queue[at].stats, s.queue[at].retry) {
      NoneNextIs(s, s.queue[at], currentRead, nextRead);
    }
  }

  lemma RollbackMoves(s: State, at: nat, outcome: RollbackOutcome)
    requires at < |s.queue| && s.queue[at].RollbackMsg?
    ensures MovesAs(s, RollbackExec(s, at, outcome), Move(s, ERollbackExec(at, outcome)))
  {
    HasTasks(s);
  }

  /** The row makes the move if it stands at its start, with one line in the audit trail, and stays otherwise. */
  predicate MovesAs(s: State, s': State, move: Option<(Status, Status)>) {
    s'.row ==
      if move.Some? && s.row.status == move.value.0
      then Row(move.value.1, s.row.history + [Edge(s.row.status, move.value.1)]) else s.row
  }

  lemma OthersMove(s: State, e: Event)
    requires e.ELost? || e.EPause? || e.EResume? || e.ECancel? || e.ERollback? || e.EReport?
    requires Enabled(s, e)
    ensures MovesAs(s, Apply(s, e), Move(s, e))
  {
  }

  /** When a step changes the status of a release, and to what. */
  lemma StatusMovesExactly(s: State, e: Event)
    requires Enabled(s, e)
    ensures var move := Move(s, e);
            Apply(s, e).row ==
              if move.Some? && s.row.status == move.value.0
              then Row(move.value.1, s.row.history + [Edge(s.row.status, move.value.1)]) else s.row
  {
    match e
    case EFinalizeSettle(at, currentRead, nextRead, sent) => SettleMoves(s, at, currentRead, nextRead, sent);
    case ERollbackExec(at, rollback) => RollbackMoves(s, at, rollback);
    case EPlanStart(_, _) =>
    case EPlanFinish(_, _) =>
    case EBuild(_, _) =>
    case EDispatchStart(_, _) =>
    case EDispatchFinish(_, _) =>
    case EFinalizeCheck(_, _, _) =>
    case _ => OthersMove(s, e);
  }

  // ── Messages ───────────────────────────────────────────────────────────────

  /** The handler returns an error. */
  predicate Errs(s: State, e: Event)
    requires Enabled(s, e)
  {
    match e
    case EPlanStart(_, readOk) => !readOk || s.row.status != Pending
    case EPlanFinish(_, plan) => !plan.Planned?
    case EBuild(_, build) => build.BuildFailed? || s.row.status != Planning || !build.listOk
    case EDispatchStart(_, readOk) => !readOk
    case EDispatchFinish(at, dispatch) => s.queue[at].artifactRead.None? || dispatch.DispatchErrored?
    case ERollbackExec(_, rollback) =>
      && s.row.status == RollingBack
      && (rollback.RollbackUnread? || !HasDomains(s) || (!HasAnyTask(s) && rollback.online == []))
    case _ => false
  }

  /** The message a handler was delivered with, with one attempt fewer. */
  function Again(m: Message): Message
    requires !m.FinalizeMsg? && !m.SettleBody? && m.left > 0
  {
    match m
    case PlanMsg(left) => PlanMsg(left - 1)
    case PlanBody(left) => PlanMsg(left - 1)
    case BuildMsg(left) => BuildMsg(left - 1)
    case DispatchMsg(shard, left) => DispatchMsg(shard, left - 1)
    case DispatchBody(shard, left, _) => DispatchMsg(shard, left - 1)
    case RollbackMsg(left) => RollbackMsg(left - 1)
  }

  /** What is left of the queue once message number `at` is taken out, with `added` at its end. */
  predicate Becomes(q: seq<Message>, at: nat, added: seq<Message>, q': seq<Message>)
    requires at < |q|
  {
    q' == q[..at] + q[at + 1..] + added
  }

  lemma RollbackErrs(s: State, at: nat, outcome: RollbackOutcome)
    requires at < |s.queue| && s.queue[at].RollbackMsg? && Errs(s, ERollbackExec(at, outcome))
    ensures RollbackExec(s, at, outcome).queue == Take(s.queue, at) + Retry(s.queue[at])
  {
    HasTasks(s);
    DomainRowsAre(s.shards);
  }

  lemma RetryIsAgain(m: Message)
    requires m.PlanMsg? || m.BuildMsg? || m.DispatchMsg? || m.RollbackMsg?
    ensures Retry(m) == if m.left > 0 then [Again(m)] else []
  {
  }

  /** After an error the message is back in the queue with one attempt fewer, unless it had none left. */
  lemma ErrorsAreRedelivered(s: State, e: Event)
    requires Enabled(s, e) && Errs(s, e)
    ensures var m := s.queue[e.at];
            Becomes(s.queue, e.at, if m.left > 0 then [Again(m)] else [], Apply(s, e).queue)
  {
    match e
    case EPlanStart(at, _) => RetryIsAgain(s.queue[at]);
    case EPlanFinish(at, _) => RetryIsAgain(PlanMsg(s.queue[at].left));
    case EBuild(at, _) => RetryIsAgain(s.queue[at]);
    case EDispatchStart(at, _) => RetryIsAgain(s.queue[at]);
    case EDispatchFinish(at, _) => RetryIsAgain(DispatchMsg(s.queue[at].shard, s.queue[at].left));
    case ERollbackExec(at, rollback) =>
      RetryIsAgain(s.queue[at]);
      RollbackErrs(s, at, rollback);
  }

  /** Without an error each handler passes on to the next one, with that one's full number of attempts. */
  lemma HandlersPassOn(s: State, e: Event)
    requires Enabled(s, e) && !Errs(s, e)
    ensures e.EPlanStart? ==> Becomes(s.queue, e.at, [PlanBody(s.queue[e.at].left)], Apply(s, e).queue)
    ensures e.EPlanFinish? ==> Becomes(s.queue, e.at, [BuildMsg(2)], Apply(s, e).queue)
    ensures e.EBuild? ==> Becomes(s.queue, e.at, if e.build.sent && s.shards != [] then [DispatchMsg(1, 3)] else [], Apply(s, e).queue)
    ensures e.EDispatchStart? ==>
              Becomes(s.queue, e.at, [DispatchBody(s.queue[e.at].shard, s.queue[e.at].left, s.artifact)], Apply(s, e).queue)
    ensures e.EDispatchFinish? ==>
              Becomes(s.queue, e.at, if e.dispatch.sent then [FinalizeMsg(s.queue[e.at].shard, 0, false)] else [], Apply(s, e).queue)
  {
  }

  /** A poll is dropped once the release has left the status it polls in, settles when nothing is in progress or at
      number 360, and is sent again with the next number otherwise. */
  lemma PollsPassOn(s: State, at: nat, readOk: bool, sent: bool)
    requires at < |s.queue| && s.queue[at].FinalizeMsg?
    ensures var m, stats := s.queue[at], StatsRead(s, s.queue[at]);
            Becomes(s.queue, at,
                    if !readOk || s.row.status != (if m.isRollback then RollingBack else Executing) then []
                    else if stats.inProgress == 0 || m.retry >= 360 then [SettleBody(m.shard, m.retry, m.isRollback, stats)]
                    else if sent then [FinalizeMsg(m.shard, m.retry + 1, m.isRollback)] else [],
                    FinalizeCheck(s, at, readOk, sent).queue)
  {
  }

  /** A rollback request that moves the row sends one message. */
  lemma RequestsPassOn(s: State, seen: Status, previousExists: bool, sent: bool)
    ensures var s' := RollbackRequest(s, seen, previousExists, sent);
            s'.queue == s.queue + if sent && s'.row != s.row then [RollbackMsg(2)] else []
  {
  }

  /** A clean shard settlement goes on to the lowest pending shard above it, if there is one to be read. */
  lemma SettlementPassesOn(s: State, at: nat, currentRead: bool, sent: bool, next: nat)
    requires at < |s.queue| && s.queue[at].SettleBody? && !s.queue[at].isRollback && !Unclean(s.queue[at])
    requires 1 <= s.queue[at].shard <= |s.shards|
    requires (if currentRead then s.queue[at].shard - 1 else 0) < next < |s.shards|
    requires next != s.queue[at].shard - 1 && s.shards[next].status == ShardPending
    requires forall k :: (if currentRead then s.queue[at].shard - 1 else 0) < k < next ==>
                           k == s.queue[at].shard - 1 || s.shards[k].status != ShardPending
    ensures Becomes(s.queue, at, if sent then [DispatchMsg(next + 1, 3)] else [], FinalizeSettle(s, at, currentRead, true, sent).queue)
  {
    var m, shards := s.queue[at], Settled(s, s.queue[at]).shards;
    NextPendingIs(shards, if currentRead then m.shard - 1 else 0);
    assert forall k :: 0 <= k < |shards| ==> (shards[k].status != ShardPending <==> k == m.shard - 1 || s.shards[k].status != ShardPending);
  }

  // ── Shards ─────────────────────────────────────────────────────────────────

  /** A plan appends one pending shard of each size, without tasks, in order. */
  lemma PlanAddsShards(s: State, at: nat, plan: PlanOutcome)
    requires at < |s.queue| && s.queue[at].PlanBody? && !plan.PlanUnread?
    ensures var s' := PlanFinish(s, at, plan);
            && s.shards <= s'.shards && |s'.shards| == |s.shards| + |plan.sizes|
            && (forall i :: 0 <= i < |plan.sizes| ==>
                  s'.shards[|s.shards| + i] == Shard(ShardPending, plan.sizes[i], [], 0, 0))
            && s'.totalDomains == if plan.totalsStored then Some(Sum(plan.sizes)) else s.totalDomains
  {
  }

  /** A dispatch that goes through appends one pending task for each agent, in order, to its shard, which is then
      running; one that fails leaves the shard dispatching.  Nothing else about any shard changes. */
  lemma DispatchCreatesTasks(s: State, at: nat, outcome: DispatchOutcome)
    requires at < |s.queue| && s.queue[at].DispatchBody? && 1 <= s.queue[at].shard <= |s.shards|
    ensures var m, s' := s.queue[at], DispatchFinish(s, at, outcome);
            var sh, sh' := s.shards[m.shard - 1], s'.shards[m.shard - 1];
            && |s'.shards| == |s.shards| && (forall k :: 0 <= k < |s.shards| && k != m.shard - 1 ==> s'.shards[k] == s.shards[k])
            && sh'.domains == sh.domains && sh'.success == sh.success && sh'.failure == sh.failure
            && (if m.artifactRead.None? || outcome.DispatchErrored?
                then sh'.tasks == sh.tasks && sh'.status == ShardDispatching
                else
                  && sh'.status == ShardRunning && sh.tasks <= sh'.tasks
                  && |sh'.tasks| == |sh.tasks| + |outcome.agents|
                  && forall k :: 0 <= k < |outcome.agents| ==>
                       sh'.tasks[|sh.tasks| + k] == AgentTask(outcome.agents[k], TaskPending))
  {
  }

  /** Settling adds the counts to the release and writes them to the settled shard, or to every shard when the whole
      release is settled; the status follows, for the whole release only if its own status moved. */
  lemma SettlementCounts(s: State, at: nat, currentRead: bool, nextRead: bool, sent: bool, k: nat)
    requires at < |s.queue| && s.queue[at].SettleBody? && k < |s.shards|
    ensures var m, s' := s.queue[at], FinalizeSettle(s, at, currentRead, nextRead, sent);
            var whole := m.isRollback || m.shard == 0;
            && s'.success == s.success + m.stats.succeeded && s'.failure == s.failure + m.stats.failed + m.stats.timeout
            && |s'.shards| == |s.shards|
            && s'.shards[k] ==
                 if !whole && k != m.shard - 1 then s.shards[k]
                 else s.shards[k].(
                   success := m.stats.succeeded,
                   failure := m.stats.failed + m.stats.timeout,
                   status := if whole && s'.row == s.row then s.shards[k].status
                             else if Unclean(m) then ShardFailed else ShardSucceeded)
  {
    var m, s' := s.queue[at], FinalizeSettle(s, at, currentRead, nextRead, sent);
    if m.isRollback || m.shard == 0 {
      assert s' == SettleWhole(s, at);
    } else {
      assert s'.shards == Settled(s, m).shards;
    }
  }

  /** Each step leaves alone what is not named here; a built artifact is stored even if the release has moved on. */
  lemma NothingElseChanges(s: State, e: Event)
    requires Enabled(s, e)
    ensures var s' := Apply(s, e);
            match e
            case EPause => s' == s.(row := s'.row)
            case EResume => s' == s.(row := s'.row)
            case ECancel(_) => s' == s.(row := s'.row)
            case EFinalizeCheck(_, _, _) => s' == s.(queue := s'.queue)
            case ELost(at) => s' == s.(queue := s.queue[..at] + s.queue[at + 1..])
            case EPlanFinish(_, _) => s' == s.(row := s'.row, queue := s'.queue, shards := s'.shards, totalDomains := s'.totalDomains)
            case EBuild(_, build) =>
              s' == s.(row := s'.row, queue := s'.queue, artifact := if build.Built? then Some(build.artifact) else s.artifact)
            case EDispatchFinish(_, _) => s' == s.(queue := s'.queue, shards := s'.shards)
            case EFinalizeSettle(_, _, _, _) =>
              s' == s.(row := s'.row, queue := s'.queue, shards := s'.shards,
                       success := s'.success, failure := s'.failure, settlements := s'.settlements)
            case ERollbackExec(_, _) => s' == s.(row := s'.row, queue := s'.queue, rollbackTasks := s'.rollbackTasks)
            case EReport(_, _, _) => s' == s.(shards := s'.shards, rollbackTasks := s'.rollbackTasks)
            case _ => s' == s.(row := s'.row, queue := s'.queue)
  {
    if e.EFinalizeSettle? && (s.queue[e.at].isRollback || s.queue[e.at].shard == 0) {
      assert Apply(s, e) == SettleWhole(s, e.at);
    }
  }

  /** A report writes the status of one existing task, done or not, and nothing else. */
  lemma ReportWrites(s: State, shard: nat, task: nat, st: TaskStatus)
    ensures var s' := Report(s, shard, task, st);
            && |s'.shards| == |s.shards| && |s'.rollbackTasks| == |s.rollbackTasks|
            && (forall k :: 0 <= k < |s.rollbackTasks| ==>
                  s'.rollbackTasks[k] == if shard == 0 && k == task then AgentTask(s.rollbackTasks[k].agent, st) else s.rollbackTasks[k])
            && (forall j :: 0 <= j < |s.shards| && j != shard - 1 ==> s'.shards[j] == s.shards[j])
            && (1 <= shard <= |s.shards| ==>
                  var sh, sh' := s.shards[shard - 1], s'.shards[shard - 1];
                  && sh' == sh.(tasks := sh'.tasks) && |sh'.tasks| == |sh.tasks|
                  && forall k :: 0 <= k < |sh.tasks| ==>
                       sh'.tasks[k] == if k == task then AgentTask(sh.tasks[k].agent, st) else sh.tasks[k])
  {
  }

  /** The tasks whose statistics a poll reads: those of its shard, with the rollback tasks for the first one, or all of
      the release for a rollback. */
  lemma PollReadsTasks(s: State, m: Message)
    requires m.FinalizeMsg? && !m.isRollback && 1 <= m.shard <= |s.shards|
    ensures StatsRead(s, m) == StatsOf(if m.shard == 1 then s.shards[0].tasks + s.rollbackTasks else s.shards[m.shard - 1].tasks)
    ensures StatsRead(s, FinalizeMsg(m.shard, m.retry, true)) == StatsOf(DeployTasks(s.shards) + s.rollbackTasks)
  {
    assert s.shards[m.shard - 1].tasks + [] == s.shards[m.shard - 1].tasks;
  }
}
