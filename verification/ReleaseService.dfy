/**
 The release service itself: the handlers as methods that update the rows in
 place.  A handler that runs without interruption does exactly what its protocol
 pieces do back to back.
 */
module ReleaseService {
  import opened Wrappers
  import opened ReleaseStates
  import opened ReleaseProtocol
  import opened Collections
  import opened ReleaseEffects
  import P = ShardPlanner
  import opened RoundRobin
  import B = ReloadBatching

  datatype TransitionError = InvalidReleaseState | ReleaseRaceCondition

  function Sizes(plan: seq<P.PlannedShard>): seq<nat> {
    seq(|plan|, i requires 0 <= i < |plan| => |plan[i].domains|)
  }

  /** How planning ends: unread without the scopes, aborted without domains or when a shard or the build message cannot be
      stored, and otherwise with one shard for each of the planner's, in order. */
  ghost predicate IsPlanOutcome(scopesOk: bool, domains: seq<P.PlanInput>, created: nat, totalsStored: bool, buildSent: bool,
                                outcome: PlanOutcome) {
    if !scopesOk then outcome == PlanUnread
    else if domains == [] then outcome == PlanAborted([], false)
    else
      exists plan ::
        && P.IsPlan(domains, plan)
        && outcome ==
             if created < |plan| then PlanAborted(Sizes(plan)[..created], false)
             else if !buildSent then PlanAborted(Sizes(plan), totalsStored)
             else Planned(Sizes(plan), totalsStored)
  }

  /** The agents of the items whose agent_task row could be inserted, in order. */
  function CreatedFor(items: seq<B.Item>, insertOk: set<int>): seq<int> {
    if items == [] then []
    else
      var n := |items| - 1;
      CreatedFor(items[..n], insertOk) + (if items[n].domainTask in insertOk then [items[n].agent] else [])
  }

  /** The rows are domain tasks of the shard, so there are no more of them than the shard has domains. */
  predicate OfShard(s: State, shard: nat, rows: seq<TaskRow>) {
    1 <= shard <= |s.shards| ==> |rows| <= s.shards[shard - 1].domains
  }

  /** The state while a worker is in the middle of a handler. */
  function InHand(s: State, m: Message): State {
    s.(queue := s.queue + [m])
  }

  class Service {
    var row: Row
    var artifact: Option<nat>
    var shards: seq<Shard>
    var rollbackTasks: seq<AgentTask>
    var totalDomains: Option<nat>
    var success: nat
    var failure: nat
    var queue: seq<Message>
    var settlements: seq<Settlement>

    function Snapshot(): State
      reads this
    {
      State(row, artifact, shards, rollbackTasks, totalDomains, success, failure, queue, settlements)
    }

    /** Create: a pending release with its plan message enqueued. */
    constructor ()
      ensures Snapshot() == CREATED
      ensures row == Row(Pending, []) && queue == [PlanMsg(3)] && shards == [] && rollbackTasks == [] && artifact == None
    {
      row, artifact, shards, rollbackTasks := NEW_ROW, None, [], [];
      totalDomains, success, failure, settlements := None, 0, 0, [];
      queue := [PlanMsg(PLAN_RETRIES)];
    }

    /** Validates the edge, then compares and swaps under the row lock. */
    method TransitionRelease(from: Status, to: Status) returns (r: Result<(), TransitionError>)
      modifies `row
      ensures row == Cas(old(row), from, to)
      ensures r == if Wins(old(row), from, to) then Ok(())
                   else Err(if CanTransition(from, to) then ReleaseRaceCondition else InvalidReleaseState)
    {
      if !CanTransition(from, to) {
        return Err(InvalidReleaseState);
      }
      if row.status != from {
        return Err(ReleaseRaceCondition);
      }
      row := Row(to, row.history + [Edge(from, to)]);
      return Ok(());
    }

    method Deliver(at: nat) returns (m: Message)
      requires at < |queue|
      modifies `queue
      ensures m == old(queue)[at] && queue == Take(old(queue), at)
    {
      m := queue[at];
      queue := queue[..at] + queue[at + 1..];
    }

    method Enqueue(m: Message, ok: bool)
      modifies `queue
      ensures queue == old(queue) + Sent(m, ok)
    {
      if ok {
        queue := queue + [m];
      }
    }

    /** Redelivery of a handler that returned an error. */
    method Redeliver(m: Message)
      requires m.PlanMsg? || m.BuildMsg? || m.DispatchMsg? || m.RollbackMsg?
      modifies `queue
      ensures queue == old(queue) + Retry(m)
    {
      queue := queue + Retry(m);
    }

    // ── Plan ─────────────────────────────────────────────────────────────────

    method CreateShards(plan: seq<P.PlannedShard>, limit: nat)
      requires limit <= |plan|
      modifies `shards
      ensures shards == old(shards) + NewShards(Sizes(plan)[..limit])
    {
      for i := 0 to limit
        invariant shards == old(shards) + NewShards(Sizes(plan)[..i])
      {
        shards := shards + [Shard(ShardPending, |plan[i].domains|, [], 0, 0)];
        assert NewShards(Sizes(plan)[..i + 1]) == NewShards(Sizes(plan)[..i]) + [shards[|shards| - 1]];
      }
    }

    /** `domains` are the scoped domains that are still active; `created` how many planned shards the
        store manages to create. */
    method HandlePlan(at: nat, readOk: bool, scopesOk: bool, domains: seq<P.PlanInput>, created: nat,
                      totalsStored: bool, buildSent: bool)
      returns (outcome: PlanOutcome)
      requires at < |queue| && queue[at].PlanMsg?
      modifies this
      ensures var s1 := PlanStart(old(Snapshot()), at, readOk);
              Snapshot() == if readOk && Wins(old(row), Pending, Planning)
                            then PlanFinish(s1, |s1.queue| - 1, outcome) else s1
      ensures readOk && Wins(old(row), Pending, Planning) ==>
                IsPlanOutcome(scopesOk, domains, created, totalsStored, buildSent, outcome)
    {
      outcome := PlanUnread;
      ghost var s0 := Snapshot();
      var m := Deliver(at);
      if !readOk {
        Redeliver(m);
        return;
      }
      var moved := TransitionRelease(Pending, Planning);
      if moved.Err? {
        Redeliver(m);
        return;
      }
      assert PlanStart(s0, at, readOk) == InHand(Snapshot(), PlanBody(m.left));
      outcome := PlanBodyOf(m, scopesOk, domains, created, totalsStored, buildSent);
    }

    /** The part of Plan after the status swap. */
    method PlanBodyOf(m: Message, scopesOk: bool, domains: seq<P.PlanInput>, created: nat, totalsStored: bool, buildSent: bool)
      returns (outcome: PlanOutcome)
      requires m.PlanMsg?
      modifies this
      ensures Snapshot() == PlanFinish(InHand(old(Snapshot()), PlanBody(m.left)), |old(queue)|, outcome)
      ensures IsPlanOutcome(scopesOk, domains, created, totalsStored, buildSent, outcome)
    {
      ghost var q := queue + [PlanBody(m.left)];
      assert Take(q, |queue|) == queue;
      if !scopesOk {
        Redeliver(m);
        return PlanUnread;
      }
      if |domains| == 0 {
        outcome := PlanAborted([], false);
        assert shards + NewShards([]) == shards;
        Abort(m);
        return;
      }
      var plan := P.PlanByHostGroup(domains);
      var limit := if created < |plan| then created else |plan|;
      CreateShards(plan, limit);
      if limit < |plan| {
        outcome := PlanAborted(Sizes(plan)[..limit], false);
        Abort(m);
        return;
      }
      assert Sizes(plan)[..|plan|] == Sizes(plan);
      if totalsStored {
        totalDomains := Some(Sum(Sizes(plan)));
      }
      if !buildSent {
        outcome := PlanAborted(Sizes(plan), totalsStored);
        Abort(m);
        return;
      }
      Enqueue(BuildMsg(BUILD_RETRIES), true);
      outcome := Planned(Sizes(plan), totalsStored);
    }

    /** Planning fails the release and returns an error. */
    method Abort(m: Message)
      requires m.PlanMsg?
      modifies `row, `queue
      ensures row == Cas(old(row), Planning, Failed) && queue == old(queue) + Retry(m)
    {
      var _ := TransitionRelease(Planning, Failed);
      Redeliver(m);
    }

    // ── Build ────────────────────────────────────────────────────────────────

    method HandleBuild(at: nat, outcome: BuildOutcome)
      requires at < |queue| && queue[at].BuildMsg?
      modifies this
      ensures Snapshot() == Build(old(Snapshot()), at, outcome)
    {
      var m := Deliver(at);
      if outcome.BuildFailed? {
        Redeliver(m);
        return;
      }
      artifact := Some(outcome.artifact);
      var moved := TransitionRelease(Planning, Ready);
      if moved.Err? || !outcome.listOk {
        Redeliver(m);
        return;
      }
      if |shards| > 0 {
        Enqueue(DispatchMsg(1, DISPATCH_RETRIES), outcome.sent);
      }
    }

    // ── Dispatch ─────────────────────────────────────────────────────────────

    method UpdateShardStatus(shard: nat, st: ShardStatus)
      modifies `shards
      ensures Snapshot() == SetShardStatus(old(Snapshot()), shard, st)
    {
      if 1 <= shard <= |shards| {
        shards := shards[shard - 1 := shards[shard - 1].(status := st)];
      }
    }

    /** Inserts the agent tasks one by one; a failed insert is logged and skipped. */
    method PersistTasks(shard: nat, items: seq<B.Item>, insertOk: set<int>)
      modifies `shards
      ensures Snapshot() == CreateTasks(old(Snapshot()), shard, CreatedFor(items, insertOk))
    {
      if 1 <= shard <= |shards| {
        ghost var was := shards[shard - 1].tasks;
        assert was + PendingTasks([]) == was;
        for i := 0 to |items|
          invariant |shards| == |old(shards)|
          invariant shards == old(shards)[shard - 1 := old(shards)[shard - 1].(
                                tasks := was + PendingTasks(CreatedFor(items[..i], insertOk)))]
        {
          ghost var agents := CreatedFor(items[..i], insertOk);
          assert items[..i + 1][..i] == items[..i];
          assert CreatedFor(items[..i + 1], insertOk)
              == agents + (if items[i].domainTask in insertOk then [items[i].agent] else []);
          if items[i].domainTask in insertOk {
            var sh := shards[shard - 1];
            shards := shards[shard - 1 := sh.(tasks := sh.tasks + [AgentTask(items[i].agent, TaskPending)])];
            assert was + PendingTasks(agents + [items[i].agent])
                == was + PendingTasks(agents) + [AgentTask(items[i].agent, TaskPending)];
          } else {
            assert CreatedFor(items[..i + 1], insertOk) == agents;
          }
        }
        assert items[..|items|] == items;
      }
    }

    /** `rows` are the shard's domain tasks with their lookups, `infraOk` says whether the artifact, manifest,
        task and agent reads succeed.  `envelopes` are the items as they are sent to the agents. */
    method HandleDispatch(at: nat, readOk: bool, infraOk: bool, rows: seq<TaskRow>, online: seq<int>,
                          batchSizes: map<int, int>, insertOk: set<int>, sent: bool)
      returns (outcome: DispatchOutcome, envelopes: seq<B.Item>)
      requires at < |queue| && queue[at].DispatchMsg?
      modifies this
      ensures var s1 := DispatchStart(old(Snapshot()), at, readOk);
              && Snapshot() == (if readOk then DispatchFinish(s1, |s1.queue| - 1, outcome) else s1)
              && (readOk && OfShard(old(Snapshot()), old(queue)[at].shard, rows) ==>
                    Enabled(s1, EDispatchFinish(|s1.queue| - 1, outcome)))
      ensures outcome.Dispatched? ==>
                && envelopes == B.Batched(ItemsOf(rows, online, |rows|), batchSizes)
                && outcome == Dispatched(CreatedFor(envelopes, insertOk), sent)
                && |outcome.agents| <= |rows|
      ensures outcome.Dispatched? <==> readOk && infraOk && old(artifact).Some?
    {
      outcome, envelopes := DispatchErrored, [];
      ghost var s0 := Snapshot();
      var m := Deliver(at);
      if !readOk {
        Redeliver(m);
        return;
      }
      var artifactRead := BecomeExecuting();
      ghost var s1 := InHand(Snapshot(), DispatchBody(m.shard, m.left, artifactRead));
      assert DispatchStart(s0, at, readOk) == s1;
      outcome, envelopes := DispatchBodyOf(m, artifactRead, infraOk, rows, online, batchSizes, insertOk, sent);
      DispatchFitsProtocol(s1, |s1.queue| - 1, rows, outcome);
    }

    /** The first dispatch starts the execution; the artifact is the one read before the swap. */
    method BecomeExecuting() returns (artifactRead: Option<nat>)
      modifies `row
      ensures Snapshot() == Transition(old(Snapshot()), Ready, Executing) && artifactRead == artifact
    {
      artifactRead := artifact;
      if row.status == Ready {
        var _ := TransitionRelease(Ready, Executing);
      }
    }

    /** The part of DispatchShard after the status swap. */
    method DispatchBodyOf(m: Message, artifactRead: Option<nat>, infraOk: bool, rows: seq<TaskRow>, online: seq<int>,
                          batchSizes: map<int, int>, insertOk: set<int>, sent: bool)
      returns (outcome: DispatchOutcome, envelopes: seq<B.Item>)
      requires m.DispatchMsg?
      modifies `shards, `queue
      ensures Snapshot() == DispatchFinish(InHand(old(Snapshot()), DispatchBody(m.shard, m.left, artifactRead)),
                                           |old(queue)|, outcome)
      ensures outcome.Dispatched? ==>
                && envelopes == B.Batched(ItemsOf(rows, online, |rows|), batchSizes)
                && outcome == Dispatched(CreatedFor(envelopes, insertOk), sent)
                && |outcome.agents| <= |rows|
      ensures outcome.Dispatched? <==> artifactRead.Some? && infraOk
    {
      outcome, envelopes := DispatchErrored, [];
      ghost var q := queue + [DispatchBody(m.shard, m.left, artifactRead)];
      assert Take(q, |queue|) == queue;
      UpdateShardStatus(m.shard, ShardDispatching);
      if artifactRead.None? || !infraOk {
        Redeliver(m);
        return;
      }
      envelopes := PrepareEnvelopes(rows, online, batchSizes);
      PersistTasks(m.shard, envelopes, insertOk);
      UpdateShardStatus(m.shard, ShardRunning);
      Enqueue(FinalizeMsg(m.shard, 0, false), sent);
      CreatedIsShort(envelopes, insertOk);
      outcome := Dispatched(CreatedFor(envelopes, insertOk), sent);
    }

    method PrepareEnvelopes(rows: seq<TaskRow>, online: seq<int>, batchSizes: map<int, int>)
      returns (envelopes: seq<B.Item>)
      ensures envelopes == B.Batched(ItemsOf(rows, online, |rows|), batchSizes)
      ensures |envelopes| <= |rows|
    {
      var items, unassigned;
      ghost var rowsOfItems;
      items, unassigned, rowsOfItems := BuildItems(rows, online);
      var cells := new B.Item[|items|](i requires 0 <= i < |items| => items[i]);
      assert cells[..] == items;
      B.ApplyReloadBatching(cells, batchSizes);
      envelopes := cells[..];
    }

    // ── Finalize ─────────────────────────────────────────────────────────────

    /** The whole-release branches: counts on every shard, the swap, and statuses only after a won swap. */
    method SettleAllShards(from: Status, to: Status, st: ShardStatus, stats: Stats)
      modifies this
      ensures Snapshot() == Transition(Counted(old(Snapshot()), stats), from, to).(
                shards := RecountAll(old(shards), stats, Wins(old(row), from, to), st))
    {
      success := success + stats.succeeded;
      failure := failure + stats.failed + stats.timeout;
      ghost var before := shards;
      UpdateAllCounts(stats, st);
      var moved := TransitionRelease(from, to);
      if moved.Ok? {
        UpdateAllStatuses(st);
        assert shards == RecountAll(before, stats, true, st);
      }
    }

    method UpdateAllCounts(stats: Stats, ghost st: ShardStatus)
      modifies `shards
      ensures shards == RecountAll(old(shards), stats, false, st)
    {
      for i := 0 to |shards|
        invariant |shards| == |old(shards)|
        invariant forall k :: 0 <= k < i ==> shards[k] == Recounted(old(shards)[k], stats, old(shards)[k].status)
        invariant forall k :: i <= k < |shards| ==> shards[k] == old(shards)[k]
      {
        shards := shards[i := shards[i].(success := stats.succeeded, failure := stats.failed + stats.timeout)];
      }
    }

    method UpdateAllStatuses(st: ShardStatus)
      modifies `shards
      ensures |shards| == |old(shards)|
      ensures forall k :: 0 <= k < |shards| ==> shards[k] == old(shards)[k].(status := st)
    {
      for i := 0 to |shards|
        invariant |shards| == |old(shards)|
        invariant forall k :: 0 <= k < i ==> shards[k] == old(shards)[k].(status := st)
        invariant forall k :: i <= k < |shards| ==> shards[k] == old(shards)[k]
      {
        shards := shards[i := shards[i].(status := st)];
      }
    }

    /** One Finalize call: drop, poll again, or settle the shard or the whole release. */
    method HandleFinalize(at: nat, readOk: bool, currentRead: bool, nextRead: bool, sent: bool)
      requires at < |queue| && queue[at].FinalizeMsg?
      modifies this
      ensures var s1 := FinalizeCheck(old(Snapshot()), at, readOk, sent);
              Snapshot() == if Settles(old(Snapshot()), old(queue)[at], readOk)
                            then FinalizeSettle(s1, |s1.queue| - 1, currentRead, nextRead, sent) else s1
    {
      var m := queue[at];
      var stats := CheckTasks(at, readOk, sent);
      if stats.Some? {
        if m.isRollback || m.shard == 0 {
          SettleWholeRelease(m.shard, m.retry, m.isRollback, stats.value);
        } else {
          SettleOneShard(m.shard, m.retry, stats.value, currentRead, nextRead, sent);
        }
      }
    }

    /** The first half of Finalize: the statistics to settle with, or none when it drops the message or polls again. */
    method CheckTasks(at: nat, readOk: bool, sent: bool) returns (stats: Option<Stats>)
      requires at < |queue| && queue[at].FinalizeMsg?
      modifies `queue
      ensures var s0, m := old(Snapshot()), old(queue)[at];
              && (stats.Some? <==> Settles(s0, m, readOk))
              && FinalizeCheck(s0, at, readOk, sent) ==
                   (if stats.Some? then InHand(Snapshot(), SettleBody(m.shard, m.retry, m.isRollback, stats.value)) else Snapshot())
    {
      ghost var s0 := Snapshot();
      var m := Deliver(at);
      assert Take(s0.queue, at) + [] == queue;
      if !readOk || row.status != Expected(m.isRollback) {
        return None;
      }
      var read := StatsRead(Snapshot(), m);
      assert read == StatsRead(s0, m);
      if read.inProgress > 0 && m.retry < MAX_FINALIZE_RETRIES {
        Enqueue(FinalizeMsg(m.shard, m.retry + 1, m.isRollback), sent);
        return None;
      }
      return Some(read);
    }

    /** The rollback branch and the legacy branch. */
    method SettleWholeRelease(shard: nat, retry: nat, isRollback: bool, stats: Stats)
      modifies this
      ensures Snapshot() == SettleWhole(InHand(old(Snapshot()), SettleBody(shard, retry, isRollback, stats)), |old(queue)|)
    {
      ghost var q := queue + [SettleBody(shard, retry, isRollback, stats)];
      assert Take(q, |queue|) == queue == queue + [];
      var failed := HasFailed(stats, retry);
      var st := if failed then ShardFailed else ShardSucceeded;
      if isRollback {
        SettleAllShards(RollingBack, if failed then Failed else RolledBack, st, stats);
      } else {
        SettleAllShards(Executing, if failed then Failed else Status.Succeeded, st, stats);
      }
    }

    /** Counters, settlement record and status of the settled shard. */
    method RecordSettlement(shard: nat, retry: nat, stats: Stats)
      modifies `shards, `success, `failure, `settlements
      ensures Snapshot() == Settled(old(Snapshot()), SettleBody(shard, retry, false, stats))
    {
      success := success + stats.succeeded;
      failure := failure + stats.failed + stats.timeout;
      settlements := settlements + [Settlement(shard, stats, retry)];
      if 1 <= shard <= |shards| {
        ghost var before := shards;
        shards := shards[shard - 1 := shards[shard - 1].(success := stats.succeeded, failure := stats.failed + stats.timeout)];
        var st := if HasFailed(stats, retry) then ShardFailed else ShardSucceeded;
        shards := shards[shard - 1 := shards[shard - 1].(status := st)];
        assert shards == before[shard - 1 := Recounted(before[shard - 1], stats, st)];
      }
    }

    /** The per-shard branch; its effect is SettleShard on the same state with the settlement in the queue. */
    method SettleOneShard(shard: nat, retry: nat, stats: Stats, currentRead: bool, nextRead: bool, sent: bool)
      modifies this
      ensures Snapshot() == SettleShard(InHand(old(Snapshot()), SettleBody(shard, retry, false, stats)),
                                        |old(queue)|, currentRead, nextRead, sent)
    {
      ghost var s0, m := InHand(Snapshot(), SettleBody(shard, retry, false, stats)), SettleBody(shard, retry, false, stats);
      assert Take(s0.queue, |queue|) == queue == queue + [];
      RecordSettlement(shard, retry, stats);
      assert InHand(Snapshot(), m) == Settled(s0, m);
      if HasFailed(stats, retry) {
        var _ := TransitionRelease(Executing, Failed);
      } else {
        MoveOn(if currentRead && 1 <= shard <= |shards| then shard - 1 else 0, nextRead, sent);
      }
    }

    /** Dispatches the next pending shard, or declares success when the read finds none. */
    method MoveOn(after: nat, nextRead: bool, sent: bool)
      modifies `row, `queue
      ensures var next := if nextRead then NextPending(shards, after) else None;
              Snapshot() == if next.Some? then old(Snapshot()).(queue := old(queue) + Sent(DispatchMsg(next.value + 1, DISPATCH_RETRIES), sent))
                            else Transition(old(Snapshot()), Executing, Status.Succeeded)
    {
      var next := None;
      if nextRead {
        next := GetNextPendingShard(after);
      }
      if next.Some? {
        Enqueue(DispatchMsg(next.value + 1, DISPATCH_RETRIES), sent);
        return;
      }
      var _ := TransitionRelease(Executing, Status.Succeeded);
    }

    /** Lowest-index pending shard above `after`. */
    method GetNextPendingShard(after: nat) returns (next: Option<nat>)
      ensures next == NextPending(shards, after)
      ensures next.Some? ==> after < next.value < |shards| && shards[next.value].status == ShardPending
      ensures forall k :: after < k < (if next.Some? then next.value else |shards|) ==> shards[k].status != ShardPending
    {
      var i := after + 1;
      while i < |shards|
        invariant after < i
        invariant NextPending(shards, after) == NextPending(shards, i - 1)
        invariant forall k :: after < k < i && k < |shards| ==> shards[k].status != ShardPending
      {
        if shards[i].status == ShardPending {
          return Some(i);
        }
        i := i + 1;
      }
      return None;
    }

    // ── Rollback ─────────────────────────────────────────────────────────────

    /** The `seen` loop of ExecuteRollback. */
    method InvolvedAgents(tasks: seq<AgentTask>) returns (agents: seq<int>)
      ensures agents == Agents(tasks)
      ensures Distinct(agents) && forall a :: a in agents <==> exists i :: 0 <= i < |tasks| && tasks[i].agent == a
    {
      var seen := {};
      agents := [];
      for i := 0 to |tasks|
        invariant agents == Agents(tasks[..i])
        invariant forall a :: a in seen <==> a in agents
      {
        assert tasks[..i + 1][..i] == tasks[..i];
        if tasks[i].agent !in seen {
          seen := seen + {tasks[i].agent};
          agents := agents + [tasks[i].agent];
        }
      }
      assert tasks[..|tasks|] == tasks;
      AgentsAreDistinct(tasks);
      forall a {
        AgentsOfTasks(tasks, a);
      }
    }

    method HandleRollback(at: nat, outcome: RollbackOutcome)
      requires at < |queue| && queue[at].RollbackMsg?
      modifies this
      ensures Snapshot() == RollbackExec(old(Snapshot()), at, outcome)
    {
      ghost var s0 := Snapshot();
      var m := Deliver(at);
      assert Take(s0.queue, at) + [] == queue;
      if row.status != RollingBack {
        return;
      }
      if outcome.RollbackUnread? {
        Redeliver(m);
        return;
      }
      var agents := InvolvedAgents(DeployTasks(shards) + rollbackTasks);
      if |agents| == 0 {
        if |outcome.online| == 0 {
          var _ := TransitionRelease(RollingBack, Failed);
          Redeliver(m);
          return;
        }
        agents := outcome.online;
      }
      if DomainRows(shards) == 0 {
        Redeliver(m);
        return;
      }
      ghost var target := CreateRollbackTasks(rollbackTasks, agents, outcome.createOk);
      for i := 0 to |agents|
        invariant CreateRollbackTasks(rollbackTasks, agents[i..], outcome.createOk) == target
        modifies `rollbackTasks
      {
        assert agents[i..][1..] == agents[i + 1..];
        if agents[i] in outcome.createOk && agents[i] !in Agents(rollbackTasks) {
          rollbackTasks := rollbackTasks + [AgentTask(agents[i], TaskPending)];
        }
      }
      Enqueue(FinalizeMsg(0, 0, true), outcome.sent);
    }

    // ── Operators ────────────────────────────────────────────────────────────

    method Pause() returns (r: Result<(), TransitionError>)
      modifies `row
      ensures Snapshot() == Apply(old(Snapshot()), EPause)
      ensures r.Ok? <==> old(row).status == Executing
      ensures row.status == if r.Ok? then Paused else old(row).status
    {
      r := TransitionRelease(Executing, Paused);
    }

    method Resume() returns (r: Result<(), TransitionError>)
      modifies `row
      ensures Snapshot() == Apply(old(Snapshot()), EResume)
      ensures r.Ok? <==> old(row).status == Paused
      ensures row.status == if r.Ok? then Executing else old(row).status
    {
      r := TransitionRelease(Paused, Executing);
    }

    /** `seen` is the status the request read, which may be stale. */
    method Cancel(seen: Status) returns (r: Result<(), TransitionError>)
      modifies `row
      ensures Snapshot() == Apply(old(Snapshot()), ECancel(seen))
      ensures r.Ok? <==> old(row).status == seen && seen in {Pending, Planning, Ready, Paused, Failed}
      ensures row.status == if r.Ok? then Cancelled else old(row).status
    {
      if !CanTransition(seen, Cancelled) {
        return Err(InvalidReleaseState);
      }
      r := TransitionRelease(seen, Cancelled);
    }

    method Rollback(seen: Status, previousExists: bool, sent: bool) returns (ok: bool)
      modifies `row, `queue
      ensures Snapshot() == Apply(old(Snapshot()), ERollback(seen, previousExists, sent))
      ensures ok <==> previousExists && old(row).status == seen && seen in {Paused, Failed}
      ensures row.status == if ok then RollingBack else old(row).status
      ensures queue == old(queue) + if ok && sent then [RollbackMsg(2)] else []
    {
      if !CanTransition(seen, RollingBack) || !previousExists {
        return false;
      }
      var moved := TransitionRelease(seen, RollingBack);
      if moved.Err? {
        return false;
      }
      Enqueue(RollbackMsg(ROLLBACK_RETRIES), sent);
      return true;
    }
  }

  /** A dispatch that creates at most one task per domain task of the shard is one the protocol accepts. */
  lemma DispatchFitsProtocol(s: State, at: nat, rows: seq<TaskRow>, outcome: DispatchOutcome)
    requires at < |s.queue| && s.queue[at].DispatchBody?
    requires outcome.Dispatched? ==> |outcome.agents| <= |rows|
    ensures OfShard(s, s.queue[at].shard, rows) ==> Enabled(s, EDispatchFinish(at, outcome))
  {
  }

  /** `at` are the items whose insert goes through, in order: one task each, for the item's agent. */
  lemma {:induction false} CreatedAre(items: seq<B.Item>, insertOk: set<int>) returns (at: seq<nat>)
    ensures Positions(at, |items|) && |at| == |CreatedFor(items, insertOk)|
    ensures forall i :: 0 <= i < |items| ==> (i in at <==> items[i].domainTask in insertOk)
    ensures forall k :: 0 <= k < |at| ==> CreatedFor(items, insertOk)[k] == items[at[k]].agent
  {
    at := [];
    if items != [] {
      var n := |items| - 1;
      var front := CreatedAre(items[..n], insertOk);
      PositionsGrow(front, n);
      assert forall i :: 0 <= i < n ==> items[..n][i] == items[i];
      var was := CreatedFor(items[..n], insertOk);
      if items[n].domainTask in insertOk {
        at := front + [n];
        assert CreatedFor(items, insertOk) == was + [items[n].agent];
      } else {
        at := front;
        assert CreatedFor(items, insertOk) == was;
      }
    }
  }

  lemma {:induction false} CreatedIsShort(items: seq<B.Item>, insertOk: set<int>)
    ensures |CreatedFor(items, insertOk)| <= |items|
  {
    if items != [] {
      CreatedIsShort(items[..|items| - 1], insertOk);
    }
  }

  lemma {:induction false} SumSnoc(ns: seq<nat>, n: nat)
    ensures Sum(ns + [n]) == Sum(ns) + n
  {
    if ns != [] {
      SumSnoc(ns[1..], n);
      assert (ns + [n])[1..] == ns[1..] + [n];
    }
  }

  lemma {:induction false} SizesSumToFlatten(plan: seq<P.PlannedShard>)
    ensures Sum(Sizes(plan)) == |P.Flatten(plan)|
  {
    if plan != [] {
      var n := |plan| - 1;
      SizesSumToFlatten(plan[..n]);
      SumSnoc(Sizes(plan[..n]), |plan[n].domains|);
      assert Sizes(plan) == Sizes(plan[..n]) + [|plan[n].domains|];
    }
  }

  lemma {:induction false} IdsKeepLength(domains: seq<P.PlanInput>)
    ensures |P.Ids(domains)| == |domains|
  {
    if domains != [] {
      IdsKeepLength(domains[..|domains| - 1]);
    }
  }

  /** The planned shard sizes add up to the domain count. */
  lemma PlanKeepsTheTotal(domains: seq<P.PlanInput>, plan: seq<P.PlannedShard>)
    requires P.IsPlan(domains, plan)
    ensures Sum(Sizes(plan)) == |domains|
  {
    P.PlanIsAPartition(domains, plan);
    SizesSumToFlatten(plan);
    IdsKeepLength(domains);
    assert |multiset(P.Flatten(plan))| == |multiset(P.Ids(domains))|;
  }

  /** What the planner returns is what the protocol asks of a planning step. */
  lemma PlannerFitsProtocol(s: State, at: nat, domains: seq<P.PlanInput>, plan: seq<P.PlannedShard>, totalsStored: bool)
    requires at < |s.queue| && s.queue[at].PlanBody?
    requires domains != [] && P.IsPlan(domains, plan)
    ensures Enabled(s, EPlanFinish(at, Planned(Sizes(plan), totalsStored)))
  {
    P.PlanIsOrdered(domains, plan);
    P.PlanHasNoEmptyShard(domains, plan);
  }
}
