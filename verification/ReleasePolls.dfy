/**
 One Finalize delivery as a whole: its check, whatever operators and agents do while
 the worker is between the two halves, and its settlement.
 */
module ReleasePolls {
  import opened ReleaseStates
  import opened ReleaseProtocol
  import opened ReleaseInvariant
  import opened ReleaseRuns

  // ── Finished tasks ─────────────────────────────────────────────────────────

  predicate AllDone(tasks: seq<AgentTask>) {
    forall k :: 0 <= k < |tasks| ==> tasks[k].status in {TaskSucceeded, TaskCancelled}
  }

  lemma {:induction false} NoneCounted(tasks: seq<AgentTask>, st: TaskStatus)
    ensures Count(tasks, st) == 0 <==> forall k :: 0 <= k < |tasks| ==> tasks[k].status != st
  {
    if tasks != [] {
      NoneCounted(tasks[1..], st);
      assert forall k :: 0 < k < |tasks| ==> tasks[k] == tasks[1..][k - 1];
      assert forall k :: 0 <= k < |tasks| - 1 ==> tasks[1..][k] == tasks[k + 1];
    }
  }

  predicate CleanStats(stats: Stats) {
    stats.failed == 0 && stats.timeout == 0 && stats.inProgress == 0
  }

  /** Statistics are clean exactly when every task has succeeded or was cancelled. */
  lemma CleanExactlyWhenDone(tasks: seq<AgentTask>)
    ensures CleanStats(StatsOf(tasks)) <==> AllDone(tasks)
  {
    NoneCounted(tasks, TaskFailed);
    NoneCounted(tasks, TaskTimeout);
    NoneCounted(tasks, TaskPending);
    NoneCounted(tasks, TaskClaimed);
    NoneCounted(tasks, TaskRunning);
  }

  // ── Between the two halves ─────────────────────────────────────────────────

  /** What operators, short of a rollback, and agents do. */
  predicate Bystander(e: Event) {
    e.EPause? || e.EResume? || e.ECancel? || e.EReport?
  }

  predicate Bystanders(events: seq<Event>) {
    forall i :: 0 <= i < |events| ==> Bystander(events[i])
  }

  /** What bystanders leave alone. */
  predicate Unmoved(s: State, s': State) {
    && s'.queue == s.queue && s'.settlements == s.settlements && |s'.shards| == |s.shards|
    && (RollbackStarted(s'.row) <==> RollbackStarted(s.row))
    && (s.row.status == RollingBack ==> s'.row == s.row)
  }

  lemma BystanderKeepsRows(s: State, e: Event)
    requires Enabled(s, e) && Bystander(e)
    ensures var s' := Apply(s, e);
            && s'.queue == s.queue && s'.settlements == s.settlements && |s'.shards| == |s.shards|
            && (s.row.status == RollingBack ==> s'.row == s.row)
  {
  }

  lemma BystanderStep(s: State, e: Event)
    requires Inv(s) && Enabled(s, e) && Bystander(e)
    ensures Inv(Apply(s, e)) && Unmoved(s, Apply(s, e))
  {
    StepKeepsInv(s, e);
    BystanderKeepsRows(s, e);
    if RollbackStarted(s.row) {
      RollbackStartedStays(s, e);
    } else {
      OnlyRequestsStartRollbacks(s, e);
    }
  }

  lemma {:induction false} BystandersKeepQueue(s: State, ops: seq<Event>)
    requires Inv(s) && IsRun(s, ops) && Bystanders(ops)
    ensures Inv(Exec(s, ops)) && Unmoved(s, Exec(s, ops))
    decreases |ops|
  {
    if ops != [] {
      BystanderStep(s, ops[0]);
      assert forall i :: 0 <= i < |ops[1..]| ==> Bystander(ops[1..][i]);
      BystandersKeepQueue(Apply(s, ops[0]), ops[1..]);
    }
  }

  /** A release whose only message is a poll, before any rollback. */
  predicate Polling(s: State) {
    Inv(s) && !RollbackStarted(s.row) && |s.queue| == 1 && s.queue[0].FinalizeMsg?
  }

  /** After the check, with the read and a renewed poll's enqueue working. */
  function Checked(s: State): State
    requires Polling(s)
  {
    FinalizeCheck(s, 0, true, true)
  }

  /** After check, bystanders and, if the check led to one, the settlement. */
  ghost function AfterPoll(s: State, ops: seq<Event>, currentRead: bool, nextRead: bool, sent: bool): State
    requires Polling(s) && IsRun(Checked(s), ops)
  {
    var s2 := Exec(Checked(s), ops);
    if s2.queue != [] && s2.queue[0].SettleBody? then FinalizeSettle(s2, 0, currentRead, nextRead, sent) else s2
  }

  lemma PollNamesShard(s: State)
    requires Polling(s)
    ensures var m := s.queue[0];
            1 <= m.shard <= |s.shards| && !m.isRollback && StatsRead(s, m) == StatsOf(s.shards[m.shard - 1].tasks)
  {
    var m := s.queue[0];
    assert TokenFits(s, m) && s.rollbackTasks == [];
    assert s.shards[m.shard - 1].tasks + [] == s.shards[m.shard - 1].tasks;
  }

  lemma CheckedIs(s: State)
    requires Polling(s)
    ensures var s1 := Checked(s);
            Inv(s1) && s1 == s.(queue := s1.queue) && s1.queue == AddedByCheck(s, s.queue[0], true, true)
  {
    FinalizeCheckKeepsInv(s, 0, true, true);
    FinalizeCheckKeepsQueue(s, 0, true, true);
    OnlyTheToken(s, 0, AddedByCheck(s, s.queue[0], true, true));
  }

  // ── Which polls strand a release ───────────────────────────────────────────

  /** A settlement leaves neither a token nor a decision exactly when the release is not executing and the
      settlement would have ended it. */
  lemma SettlementStrandsExactly(s: State, m: Message, currentRead: bool)
    requires Inv(s) && !RollbackStarted(s.row) && s.queue == [m] && m.SettleBody?
    ensures var s' := FinalizeSettle(s, 0, currentRead, true, true);
            Tokens(s'.queue) == 0 && s'.row == s.row <==>
              s.row.status != Executing && (HasFailed(m.stats, m.retry) || m.shard == |s.shards|)
  {
    SettleShardIs(s, m, currentRead, true, true);
    var s' := FinalizeSettle(s, 0, currentRead, true, true);
    assert s'.queue == [] || (|s'.queue| == 1 && s'.queue[0].DispatchMsg?);
    if s'.queue != [] {
      assert s'.queue[1..] == [];
    }
    if s.row.status == Executing && s'.queue == [] {
      assert s'.row.status != Executing;
    }
  }

  /** A check that does not settle leaves the next poll, or nothing when the release is not executing. */
  lemma PollWaits(s: State, ops: seq<Event>)
    requires Polling(s) && IsRun(Checked(s), ops) && Bystanders(ops) && !Settles(s, s.queue[0], true)
    ensures var q := Exec(Checked(s), ops).queue;
            && (q != [] ==> q[0].FinalizeMsg?)
            && Tokens(q) == if s.row.status == Executing then 1 else 0
  {
    PollNamesShard(s);
    CheckedIs(s);
    BystandersKeepQueue(Checked(s), ops);
    var q := Exec(Checked(s), ops).queue;
    assert q != [] ==> q[1..] == [];
  }

  /** Exactly when a whole poll leaves the release with neither a token nor a decision, whatever operators and
      agents do while it runs: the release was not executing at the check, or the check led to a settlement that
      would have ended it and the release was not executing at the settlement. */
  lemma PollStrandsExactly(s: State, ops: seq<Event>, currentRead: bool)
    requires Polling(s) && IsRun(Checked(s), ops) && Bystanders(ops)
    ensures var s2, s3, m := Exec(Checked(s), ops), AfterPoll(s, ops, currentRead, true, true), s.queue[0];
            Tokens(s3.queue) == 0 && s3.row == s2.row <==>
              || s.row.status != Executing
              || (&& Settles(s, m, true) && s2.row.status != Executing
                  && (HasFailed(StatsRead(s, m), m.retry) || m.shard == |s.shards|))
  {
    var s2, m := Exec(Checked(s), ops), s.queue[0];
    if Settles(s, m, true) {
      SettlementWaits(s, ops);
      PollNamesShard(s);
      SettlementStrandsExactly(s2, s2.queue[0], currentRead);
    } else {
      PollWaits(s, ops);
    }
  }

  // ── What a settling poll decides ───────────────────────────────────────────

  lemma SettlementDecides(s: State, m: Message, currentRead: bool, nextRead: bool, sent: bool)
    requires Inv(s) && !RollbackStarted(s.row) && s.queue == [m] && m.SettleBody?
    ensures var s', failed := FinalizeSettle(s, 0, currentRead, nextRead, sent), HasFailed(m.stats, m.retry);
            && 1 <= m.shard <= |s.shards| == |s'.shards|
            && s'.settlements == s.settlements + [Settlement(m.shard, m.stats, m.retry)]
            && s'.shards[m.shard - 1].status == (if failed then ShardFailed else ShardSucceeded)
            && (failed && s.row.status == Executing ==> s'.row.status == Failed)
  {
    SettleShardIs(s, m, currentRead, nextRead, sent);
  }

  /** A check that settles leaves its settlement in the queue, with the statistics it read. */
  lemma CheckedSettlement(s: State)
    requires Polling(s) && Settles(s, s.queue[0], true)
    ensures var m, s1 := s.queue[0], Checked(s);
            && 1 <= m.shard <= |s.shards| && Inv(s1) && s1 == s.(queue := s1.queue)
            && s1.queue == [SettleBody(m.shard, m.retry, false, StatsOf(s.shards[m.shard - 1].tasks))]
  {
    PollNamesShard(s);
    CheckedIs(s);
  }

  /** A shard's settlement counts as failed exactly when some task was not done at the check. */
  lemma FailedExactlyWhenNotDone(tasks: seq<AgentTask>, retry: nat)
    requires StatsOf(tasks).inProgress > 0 ==> retry >= MAX_FINALIZE_RETRIES
    ensures HasFailed(StatsOf(tasks), retry) <==> !AllDone(tasks)
  {
    CleanExactlyWhenDone(tasks);
  }

  /** The settlement is still waiting when the bystanders are through. */
  lemma SettlementWaits(s: State, ops: seq<Event>)
    requires Polling(s) && IsRun(Checked(s), ops) && Bystanders(ops) && Settles(s, s.queue[0], true)
    ensures var s2, m := Exec(Checked(s), ops), s.queue[0];
            && 1 <= m.shard <= |s.shards| && Inv(s2) && !RollbackStarted(s2.row)
            && s2.queue == [SettleBody(m.shard, m.retry, false, StatsOf(s.shards[m.shard - 1].tasks))]
            && s2.settlements == s.settlements && |s2.shards| == |s.shards|
  {
    CheckedSettlement(s);
    BystandersKeepQueue(Checked(s), ops);
  }

  lemma SettlementReflectsTasks(s: State)
    requires Polling(s) && Settles(s, s.queue[0], true)
    ensures 1 <= s.queue[0].shard <= |s.shards|
    ensures HasFailed(StatsOf(s.shards[s.queue[0].shard - 1].tasks), s.queue[0].retry) <==> !AllDone(s.shards[s.queue[0].shard - 1].tasks)
  {
    PollNamesShard(s);
    FailedExactlyWhenNotDone(s.shards[s.queue[0].shard - 1].tasks, s.queue[0].retry);
  }

  /** A poll that settles records the shard once, as succeeded exactly when every task had succeeded or was
      cancelled at the check; a failed shard fails a release that is still executing. */
  lemma SettlingPollDecides(s: State, ops: seq<Event>, currentRead: bool, nextRead: bool, sent: bool)
    requires Polling(s) && IsRun(Checked(s), ops) && Bystanders(ops) && Settles(s, s.queue[0], true)
    ensures var s2, s3, m := Exec(Checked(s), ops), AfterPoll(s, ops, currentRead, nextRead, sent), s.queue[0];
            && 1 <= m.shard <= |s.shards| && |s3.shards| == |s.shards|
            && s3.settlements == s.settlements + [Settlement(m.shard, StatsOf(s.shards[m.shard - 1].tasks), m.retry)]
            && (var done, settled := AllDone(s.shards[m.shard - 1].tasks), s3.shards[m.shard - 1].status;
                && settled == (if done then ShardSucceeded else ShardFailed)
                && (!done && s2.row.status == Executing ==> s3.row.status == Failed))
  {
    SettlementWaits(s, ops);
    SettlementReflectsTasks(s);
    var s2 := Exec(Checked(s), ops);
    SettlementDecides(s2, s2.queue[0], currentRead, nextRead, sent);
  }

  /** The last poll of a shard always settles it: as failed if anything is unfinished, and then the release fails
      if it is still executing. */
  lemma LastPollSettles(s: State, ops: seq<Event>, currentRead: bool, nextRead: bool, sent: bool)
    requires Polling(s) && s.row.status == Executing && s.queue[0].retry >= MAX_FINALIZE_RETRIES
    requires IsRun(Checked(s), ops) && Bystanders(ops)
    ensures var s2, s3, m := Exec(Checked(s), ops), AfterPoll(s, ops, currentRead, nextRead, sent), s.queue[0];
            && 1 <= m.shard <= |s3.shards| == |s.shards| && |s3.settlements| == |s.settlements| + 1
            && (var done, settled := AllDone(s.shards[m.shard - 1].tasks), s3.shards[m.shard - 1].status;
                && settled == (if done then ShardSucceeded else ShardFailed)
                && (!done && s2.row.status == Executing ==> s3.row.status == Failed))
  {
    PollNamesShard(s);
    SettlingPollDecides(s, ops, currentRead, nextRead, sent);
  }

  // ── Rollback polls ─────────────────────────────────────────────────────────

  lemma RollbackCheckIs(s: State, at: nat, sent: bool)
    requires at < |s.queue| && s.queue[at].FinalizeMsg? && s.queue[at].isRollback && Settles(s, s.queue[at], true)
    ensures var s1, m := FinalizeCheck(s, at, true, sent), s.queue[at];
            && s1.row == s.row
            && s1.queue == Take(s.queue, at) + [SettleBody(m.shard, m.retry, true, StatsOf(ReleaseTasks(s)))]
  {
  }

  lemma RollbackSettlementIs(s: State, at: nat)
    requires at < |s.queue| && s.queue[at].SettleBody? && s.queue[at].isRollback && s.row.status == RollingBack
    ensures FinalizeSettle(s, at, true, true, true).row.status ==
            if HasFailed(s.queue[at].stats, s.queue[at].retry) then Failed else RolledBack
  {
  }

  /** Exactly when a rollback poll that settles completes as rolled_back: every task of the release, deploy tasks
      included, has succeeded or was cancelled at the check.  Otherwise the release fails. */
  lemma RolledBackExactlyWhenAllDone(s: State, at: nat, ops: seq<Event>, sent: bool)
    requires Inv(s) && at < |s.queue| && s.queue[at].FinalizeMsg? && s.queue[at].isRollback
    requires Settles(s, s.queue[at], true)
    requires IsRun(FinalizeCheck(s, at, true, sent), ops) && Bystanders(ops)
    ensures var s2 := Exec(FinalizeCheck(s, at, true, sent), ops);
            && s2.queue != [] && s2.queue[|s2.queue| - 1].SettleBody?
            && (var s3 := FinalizeSettle(s2, |s2.queue| - 1, true, true, true);
                s3.row.status == if AllDone(ReleaseTasks(s)) then RolledBack else Failed)
  {
    RollbackSettlementWaits(s, at, ops, sent);
    var s2 := Exec(FinalizeCheck(s, at, true, sent), ops);
    RollbackSettlementIs(s2, |s2.queue| - 1);
    FailedExactlyWhenNotDone(ReleaseTasks(s), s.queue[at].retry);
  }

  lemma RollbackSettlementWaits(s: State, at: nat, ops: seq<Event>, sent: bool)
    requires Inv(s) && at < |s.queue| && s.queue[at].FinalizeMsg? && s.queue[at].isRollback
    requires Settles(s, s.queue[at], true)
    requires IsRun(FinalizeCheck(s, at, true, sent), ops) && Bystanders(ops)
    ensures var s2, m := Exec(FinalizeCheck(s, at, true, sent), ops), s.queue[at];
            && s2.row.status == RollingBack && s2.queue != []
            && s2.queue[|s2.queue| - 1] == SettleBody(m.shard, m.retry, true, StatsOf(ReleaseTasks(s)))
  {
    FinalizeCheckKeepsInv(s, at, true, sent);
    RollbackCheckIs(s, at, sent);
    BystandersKeepQueue(FinalizeCheck(s, at, true, sent), ops);
  }
}
