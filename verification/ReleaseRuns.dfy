/** Runs read from their end, and what happens to a single agent task along a run. */
module ReleaseRuns {
  import opened ReleaseStates
  import opened ReleaseProtocol

  lemma {:induction false} RunSnoc(s: State, events: seq<Event>, e: Event)
    requires IsRun(s, events) && Enabled(Exec(s, events), e)
    ensures IsRun(s, events + [e]) && Exec(s, events + [e]) == Apply(Exec(s, events), e)
    decreases |events|
  {
    if events == [] {
      assert (events + [e])[1..] == [];
    } else {
      RunSnoc(Apply(s, events[0]), events[1..], e);
      assert (events + [e])[1..] == events[1..] + [e];
    }
  }

  /** A run without its last event is a run, and the last event is enabled where it ends. */
  lemma {:induction false} RunUnsnoc(s: State, events: seq<Event>)
    requires IsRun(s, events) && events != []
    ensures var n := |events| - 1;
            && IsRun(s, events[..n]) && Enabled(Exec(s, events[..n]), events[n])
            && Exec(s, events) == Apply(Exec(s, events[..n]), events[n])
    decreases |events|
  {
    var n := |events| - 1;
    if n > 0 {
      RunUnsnoc(Apply(s, events[0]), events[1..]);
      assert events[..n][1..] == events[1..][..n - 1];
    }
  }

  lemma {:induction false} PrefixIsRun(s: State, events: seq<Event>, n: nat)
    requires IsRun(s, events) && n <= |events|
    ensures IsRun(s, events[..n])
    decreases |events|
  {
    if n < |events| {
      RunUnsnoc(s, events);
      PrefixIsRun(s, events[..|events| - 1], n);
      assert events[..|events| - 1][..n] == events[..n];
    } else {
      assert events[..n] == events;
    }
  }

  /** The state of a release after the first `n` events of its run. */
  ghost function StateAt(events: seq<Event>, n: nat): State
    requires IsRun(CREATED, events) && n <= |events|
  {
    PrefixIsRun(CREATED, events, n);
    Exec(CREATED, events[..n])
  }

  lemma StateAtStep(events: seq<Event>, n: nat)
    requires IsRun(CREATED, events) && n < |events|
    ensures Enabled(StateAt(events, n), events[n]) && StateAt(events, n + 1) == Apply(StateAt(events, n), events[n])
  {
    PrefixIsRun(CREATED, events, n + 1);
    RunUnsnoc(CREATED, events[..n + 1]);
    assert events[..n + 1][..n] == events[..n];
  }

  /** Every event attempts at most one swap of the status, and only a rollback request swaps to rolling_back. */
  lemma RowStep(s: State, e: Event) returns (from: Status, to: Status)
    requires Enabled(s, e)
    ensures Apply(s, e).row == s.row || Apply(s, e).row == Cas(s.row, from, to)
    ensures (to == RollingBack ==> e.ERollback?) && (to == Paused ==> e.EPause?) && (to == Cancelled ==> e.ECancel?)
  {
    match e
    case EPlanStart(_, _) => from, to := Pending, Planning;
    case EPlanFinish(_, _) => from, to := Planning, Failed;
    case EBuild(_, _) => from, to := Planning, Ready;
    case EDispatchStart(_, _) => from, to := Ready, Executing;
    case EDispatchFinish(_, _) => from, to := Pending, Pending;
    case EFinalizeCheck(_, _, _) => from, to := Pending, Pending;
    case EFinalizeSettle(at, currentRead, nextRead, sent) => from, to := SettleSwap(s, at, currentRead, nextRead, sent);
    case ERollbackExec(_, _) => from, to := RollingBack, Failed;
    case ELost(_) => from, to := Pending, Pending;
    case EPause => from, to := Executing, Paused;
    case EResume => from, to := Paused, Executing;
    case ECancel(seen) => from, to := seen, Cancelled;
    case ERollback(seen, _, _) => from, to := seen, RollingBack;
    case EReport(_, _, _) => from, to := Pending, Pending;
  }

  lemma SettleSwap(s: State, at: nat, currentRead: bool, nextRead: bool, sent: bool) returns (from: Status, to: Status)
    requires at < |s.queue| && s.queue[at].SettleBody?
    ensures var r := FinalizeSettle(s, at, currentRead, nextRead, sent).row; r == s.row || r == Cas(s.row, from, to)
    ensures to !in {RollingBack, Paused, Cancelled}
  {
    var m := s.queue[at];
    var failed := HasFailed(m.stats, m.retry);
    if m.isRollback || m.shard == 0 {
      from, to := Expected(m.isRollback), if failed then Failed else if m.isRollback then RolledBack else Status.Succeeded;
    } else {
      from, to := Executing, if failed then Failed else Status.Succeeded;
    }
  }

  lemma RollbackStartedStays(s: State, e: Event)
    requires Enabled(s, e) && RollbackStarted(s.row)
    ensures RollbackStarted(Apply(s, e).row)
  {
    var from, to := RowStep(s, e);
    CasFacts(s.row, from, to);
  }

  lemma OnlyRequestsStartRollbacks(s: State, e: Event)
    requires Enabled(s, e) && !RollbackStarted(s.row) && !e.ERollback?
    ensures !RollbackStarted(Apply(s, e).row)
  {
    var from, to := RowStep(s, e);
    CasFacts(s.row, from, to);
  }

  lemma {:induction false} StartedStaysInRun(events: seq<Event>, a: nat, b: nat)
    requires IsRun(CREATED, events) && a <= b <= |events| && RollbackStarted(StateAt(events, a).row)
    ensures RollbackStarted(StateAt(events, b).row)
    decreases b
  {
    if a < b {
      StartedStaysInRun(events, a, b - 1);
      StateAtStep(events, b - 1);
      RollbackStartedStays(StateAt(events, b - 1), events[b - 1]);
    }
  }

  // ── One agent task ─────────────────────────────────────────────────────────

  /** Task `k` of the shard with index `j` exists. */
  predicate HasTask(s: State, j: nat, k: nat) {
    j < |s.shards| && k < |s.shards[j].tasks|
  }

  predicate ReportsOn(e: Event, j: nat, k: nat) {
    e.EReport? && e.shard == j + 1 && e.task == k
  }

  predicate SameTask(s: State, s': State, j: nat, k: nat)
    requires HasTask(s, j, k)
  {
    HasTask(s', j, k) && s'.shards[j].tasks[k] == s.shards[j].tasks[k]
  }

  lemma DispatchKeepsTask(s: State, at: nat, outcome: DispatchOutcome, j: nat, k: nat)
    requires at < |s.queue| && s.queue[at].DispatchBody? && HasTask(s, j, k)
    ensures SameTask(s, DispatchFinish(s, at, outcome), j, k)
  {
    var m := s.queue[at];
    var s1 := SetShardStatus(s, m.shard, ShardDispatching);
    assert SameTask(s, s1, j, k);
    if outcome.Dispatched? {
      var s2 := CreateTasks(s1, m.shard, outcome.agents);
      assert SameTask(s1, s2, j, k);
      assert SameTask(s2, SetShardStatus(s2, m.shard, ShardRunning), j, k);
    }
  }

  lemma SettleKeepsTask(s: State, at: nat, currentRead: bool, nextRead: bool, sent: bool, j: nat, k: nat)
    requires at < |s.queue| && s.queue[at].SettleBody? && HasTask(s, j, k)
    ensures SameTask(s, FinalizeSettle(s, at, currentRead, nextRead, sent), j, k)
  {
    var m := s.queue[at];
    if m.isRollback || m.shard == 0 {
      assert SettleWhole(s, at).shards[j].tasks == s.shards[j].tasks;
    } else {
      assert SettleShard(s, at, currentRead, nextRead, sent).shards[j].tasks == s.shards[j].tasks;
    }
  }

  /** Only a report on the task itself changes a task. */
  lemma TaskStays(s: State, e: Event, j: nat, k: nat)
    requires Enabled(s, e) && HasTask(s, j, k) && !ReportsOn(e, j, k)
    ensures SameTask(s, Apply(s, e), j, k)
  {
    match e
    case EDispatchFinish(at, dispatch) => DispatchKeepsTask(s, at, dispatch, j, k);
    case EFinalizeSettle(at, currentRead, nextRead, sent) => SettleKeepsTask(s, at, currentRead, nextRead, sent, j, k);
    case EReport(_, _, _) =>
    case EPlanFinish(_, _) =>
    case _ => assert Apply(s, e).shards == s.shards;
  }

  /** Some event from position `from` on reports on the task. */
  predicate ReportedSince(events: seq<Event>, from: nat, j: nat, k: nat) {
    exists i :: from <= i < |events| && ReportsOn(events[i], j, k)
  }

  lemma ReportedLonger(events: seq<Event>, a: nat, b: nat, j: nat, k: nat)
    requires b < |events| && (ReportedSince(events[..b], a, j, k) || (a <= b && ReportsOn(events[b], j, k)))
    ensures ReportedSince(events[..b + 1], a, j, k)
  {
    if ReportedSince(events[..b], a, j, k) {
      var i :| a <= i < b && ReportsOn(events[..b][i], j, k);
      assert events[..b + 1][i] == events[..b][i];
    } else {
      assert events[..b + 1][b] == events[b];
    }
  }

  /** A task that changes between two points of a run was reported on in between. */
  lemma {:induction false} ChangedMeansReported(events: seq<Event>, a: nat, b: nat, j: nat, k: nat)
    requires IsRun(CREATED, events) && a <= b <= |events| && HasTask(StateAt(events, a), j, k)
    ensures SameTask(StateAt(events, a), StateAt(events, b), j, k) || ReportedSince(events[..b], a, j, k)
    decreases b
  {
    if a < b {
      ChangedMeansReported(events, a, b - 1, j, k);
      if ReportedSince(events[..b - 1], a, j, k) || ReportsOn(events[b - 1], j, k) {
        ReportedLonger(events, a, b - 1, j, k);
      } else {
        StateAtStep(events, b - 1);
        TaskStays(StateAt(events, b - 1), events[b - 1], j, k);
      }
    }
  }
}
