/**
 The release engine as a queue-driven protocol (internal/release/service.go and
 rollback.go).  A state holds the rows the engine writes and the queued messages.

 Plan, Dispatch and Finalize are cut where another actor can get between their reads
 and their writes: the first piece reads the release row and, for the first two, swaps
 its status, and leaves a continuation in the queue that stands for the worker in the
 middle of the handler.  Operators and agents may act between the pieces.  Build and
 the execution of a rollback are one step each.  A handler that returns an error is
 redelivered while it has attempts left; any message may also be lost.
 */
module ReleaseProtocol {
  import opened Wrappers
  import opened ReleaseStates

  // ── Rows ───────────────────────────────────────────────────────────────────

  datatype TaskStatus =
    | TaskPending | TaskClaimed | TaskRunning
    | TaskSucceeded | TaskFailed | TaskTimeout | TaskCancelled

  datatype AgentTask = AgentTask(agent: int, status: TaskStatus)

  datatype ShardStatus = ShardPending | ShardDispatching | ShardRunning | ShardSucceeded | ShardFailed

  /** A release_shards row, its domain_task row count and its deploy agent_tasks. */
  datatype Shard = Shard(status: ShardStatus, domains: nat, tasks: seq<AgentTask>, success: nat, failure: nat)

  datatype Stats = Stats(succeeded: nat, failed: nat, timeout: nat, inProgress: nat, total: nat)

  /** What one Finalize saw for a shard when it decided to settle it. */
  datatype Settlement = Settlement(shard: nat, stats: Stats, retry: nat)

  const MAX_FINALIZE_RETRIES: nat := 360
  const PLAN_RETRIES: nat := 3
  const BUILD_RETRIES: nat := 2
  const DISPATCH_RETRIES: nat := 3
  const ROLLBACK_RETRIES: nat := 2

  /** Queued messages, and continuations of handlers that are past their first read.
      Shard ids count from 1 in index order, so id 0 means "no shard". */
  datatype Message =
    | PlanMsg(left: nat)
    | PlanBody(left: nat)
    | BuildMsg(left: nat)
    | DispatchMsg(shard: nat, left: nat)
    | DispatchBody(shard: nat, left: nat, artifactRead: Option<nat>)
    | FinalizeMsg(shard: nat, retry: nat, isRollback: bool)
    | SettleBody(shard: nat, retry: nat, isRollback: bool, stats: Stats)
    | RollbackMsg(left: nat)

  datatype State = State(
    row: Row,
    artifact: Option<nat>,
    shards: seq<Shard>,
    rollbackTasks: seq<AgentTask>,
    totalDomains: Option<nat>,
    success: nat,
    failure: nat,
    queue: seq<Message>,
    settlements: seq<Settlement>)

  /** The state Create leaves behind: a pending release and its plan message. */
  const CREATED := State(NEW_ROW, None, [], [], None, 0, 0, [PlanMsg(PLAN_RETRIES)], [])

  // ── Agent task statistics (store/postgres/agent.go) ────────────────────────

  function Count(tasks: seq<AgentTask>, st: TaskStatus): nat {
    if tasks == [] then 0
    else (if tasks[0].status == st then 1 else 0) + Count(tasks[1..], st)
  }

  function StatsOf(tasks: seq<AgentTask>): Stats {
    Stats(Count(tasks, TaskSucceeded), Count(tasks, TaskFailed), Count(tasks, TaskTimeout),
          Count(tasks, TaskPending) + Count(tasks, TaskClaimed) + Count(tasks, TaskRunning), |tasks|)
  }

  /** Rollback tasks hang off the release's first domain task, which is in the first shard. */
  function ShardTasks(s: State, shard: nat): seq<AgentTask> {
    if 1 <= shard <= |s.shards|
    then s.shards[shard - 1].tasks + (if shard == 1 then s.rollbackTasks else [])
    else []
  }

  function DeployTasks(shards: seq<Shard>): seq<AgentTask> {
    if shards == [] then [] else shards[0].tasks + DeployTasks(shards[1..])
  }

  function ReleaseTasks(s: State): seq<AgentTask> {
    DeployTasks(s.shards) + s.rollbackTasks
  }

  // ── Queue ──────────────────────────────────────────────────────────────────

  function Take(q: seq<Message>, at: nat): seq<Message>
    requires at < |q|
  {
    q[..at] + q[at + 1..]
  }

  function Replace(s: State, at: nat, added: seq<Message>): State
    requires at < |s.queue|
  {
    s.(queue := Take(s.queue, at) + added)
  }

  /** An enqueue whose failure the code only logs. */
  function Sent(m: Message, ok: bool): seq<Message> {
    if ok then [m] else []
  }

  /** A handler that returned an error is redelivered while attempts are left. */
  function Retry(m: Message): seq<Message>
    requires m.PlanMsg? || m.BuildMsg? || m.DispatchMsg? || m.RollbackMsg?
  {
    if m.left == 0 then []
    else match m
      case PlanMsg(left) => [PlanMsg(left - 1)]
      case BuildMsg(left) => [BuildMsg(left - 1)]
      case DispatchMsg(shard, left) => [DispatchMsg(shard, left - 1)]
      case RollbackMsg(left) => [RollbackMsg(left - 1)]
  }

  function Transition(s: State, from: Status, to: Status): State {
    s.(row := Cas(s.row, from, to))
  }

  // ── Plan ───────────────────────────────────────────────────────────────────

  datatype PlanOutcome =
    | Planned(sizes: seq<nat>, totalsStored: bool)
    | PlanAborted(sizes: seq<nat>, totalsStored: bool)
    | PlanUnread

  function NewShards(sizes: seq<nat>): seq<Shard> {
    seq(|sizes|, i requires 0 <= i < |sizes| => Shard(ShardPending, sizes[i], [], 0, 0))
  }

  function Sum(ns: seq<nat>): nat {
    if ns == [] then 0 else ns[0] + Sum(ns[1..])
  }

  function PlanStart(s: State, at: nat, readOk: bool): State
    requires at < |s.queue| && s.queue[at].PlanMsg?
  {
    var m := s.queue[at];
    if readOk && Wins(s.row, Pending, Planning)
    then Replace(Transition(s, Pending, Planning), at, [PlanBody(m.left)])
    else Replace(s, at, Retry(m))
  }

  function PlanFinish(s: State, at: nat, outcome: PlanOutcome): State
    requires at < |s.queue| && s.queue[at].PlanBody?
  {
    var again := Retry(PlanMsg(s.queue[at].left));
    match outcome
    case Planned(sizes, totalsStored) =>
      var s1 := s.(shards := s.shards + NewShards(sizes),
                   totalDomains := if totalsStored then Some(Sum(sizes)) else s.totalDomains);
      Replace(s1, at, [BuildMsg(BUILD_RETRIES)])
    case PlanAborted(sizes, totalsStored) =>
      var s1 := s.(shards := s.shards + NewShards(sizes),
                   totalDomains := if totalsStored then Some(Sum(sizes)) else s.totalDomains);
      Replace(Transition(s1, Planning, Failed), at, again)
    case PlanUnread =>
      Replace(s, at, again)
  }

  // ── Build and MarkReady ────────────────────────────────────────────────────

  datatype BuildOutcome = BuildFailed | Built(artifact: nat, listOk: bool, sent: bool)

  function Build(s: State, at: nat, outcome: BuildOutcome): State
    requires at < |s.queue| && s.queue[at].BuildMsg?
  {
    var m := s.queue[at];
    match outcome
    case BuildFailed => Replace(s, at, Retry(m))
    case Built(artifact, listOk, sent) =>
      var s1 := s.(artifact := Some(artifact));
      if !Wins(s1.row, Planning, Ready) then Replace(s1, at, Retry(m))
      else
        var s2 := Transition(s1, Planning, Ready);
        if !listOk then Replace(s2, at, Retry(m))
        else Replace(s2, at, Sent(DispatchMsg(1, DISPATCH_RETRIES), sent && |s.shards| > 0))
  }

  // ── Dispatch ───────────────────────────────────────────────────────────────

  datatype DispatchOutcome = DispatchErrored | Dispatched(agents: seq<int>, sent: bool)

  function SetShard(s: State, shard: nat, sh: Shard): State
    requires 1 <= shard <= |s.shards|
  {
    s.(shards := s.shards[shard - 1 := sh])
  }

  /** UpdateShardStatus; an unknown id updates no row. */
  function SetShardStatus(s: State, shard: nat, st: ShardStatus): State {
    if 1 <= shard <= |s.shards| then SetShard(s, shard, s.shards[shard - 1].(status := st)) else s
  }

  function PendingTasks(agents: seq<int>): seq<AgentTask> {
    seq(|agents|, i requires 0 <= i < |agents| => AgentTask(agents[i], TaskPending))
  }

  function CreateTasks(s: State, shard: nat, agents: seq<int>): State {
    if 1 <= shard <= |s.shards|
    then SetShard(s, shard, s.shards[shard - 1].(tasks := s.shards[shard - 1].tasks + PendingTasks(agents)))
    else s
  }

  function DispatchStart(s: State, at: nat, readOk: bool): State
    requires at < |s.queue| && s.queue[at].DispatchMsg?
  {
    var m := s.queue[at];
    if !readOk then Replace(s, at, Retry(m))
    else Replace(Transition(s, Ready, Executing), at, [DispatchBody(m.shard, m.left, s.artifact)])
  }

  function DispatchFinish(s: State, at: nat, outcome: DispatchOutcome): State
    requires at < |s.queue| && s.queue[at].DispatchBody?
  {
    var m := s.queue[at];
    var s1 := SetShardStatus(s, m.shard, ShardDispatching);
    if m.artifactRead.None? || outcome.DispatchErrored?
    then Replace(s1, at, Retry(DispatchMsg(m.shard, m.left)))
    else
      var s2 := SetShardStatus(CreateTasks(s1, m.shard, outcome.agents), m.shard, ShardRunning);
      Replace(s2, at, Sent(FinalizeMsg(m.shard, 0, false), outcome.sent))
  }

  // ── Finalize ───────────────────────────────────────────────────────────────

  predicate HasFailed(stats: Stats, retry: nat) {
    stats.failed > 0 || stats.timeout > 0 || (stats.inProgress > 0 && retry >= MAX_FINALIZE_RETRIES)
  }

  function StatsRead(s: State, m: Message): Stats
    requires m.FinalizeMsg?
  {
    if !m.isRollback && m.shard > 0 then StatsOf(ShardTasks(s, m.shard)) else StatsOf(ReleaseTasks(s))
  }

  function Expected(isRollback: bool): Status {
    if isRollback then RollingBack else Executing
  }

  /** Finalize goes on from its check to a settlement. */
  predicate Settles(s: State, m: Message, readOk: bool)
    requires m.FinalizeMsg?
  {
    && readOk && s.row.status == Expected(m.isRollback)
    && !(StatsRead(s, m).inProgress > 0 && m.retry < MAX_FINALIZE_RETRIES)
  }

  function FinalizeCheck(s: State, at: nat, readOk: bool, sent: bool): State
    requires at < |s.queue| && s.queue[at].FinalizeMsg?
  {
    var m := s.queue[at];
    if !readOk || s.row.status != Expected(m.isRollback) then Replace(s, at, [])
    else
      var stats := StatsRead(s, m);
      if stats.inProgress > 0 && m.retry < MAX_FINALIZE_RETRIES
      then Replace(s, at, Sent(FinalizeMsg(m.shard, m.retry + 1, m.isRollback), sent))
      else Replace(s, at, [SettleBody(m.shard, m.retry, m.isRollback, stats)])
  }

  /** GetNextPendingShard: the lowest pending shard whose index is above `after`, or None. */
  function NextPending(shards: seq<Shard>, after: nat): Option<nat>
    decreases |shards| - after
  {
    if after + 1 >= |shards| then None
    else if shards[after + 1].status == ShardPending then Some(after + 1)
    else NextPending(shards, after + 1)
  }

  function Recounted(sh: Shard, stats: Stats, st: ShardStatus): Shard {
    sh.(status := st, success := stats.succeeded, failure := stats.failed + stats.timeout)
  }

  function Counted(s: State, stats: Stats): State {
    s.(success := s.success + stats.succeeded, failure := s.failure + stats.failed + stats.timeout)
  }

  /** Every shard gets the same counts; its status changes only if the swap committed. */
  function RecountAll(shards: seq<Shard>, stats: Stats, won: bool, st: ShardStatus): seq<Shard> {
    seq(|shards|, i requires 0 <= i < |shards| => Recounted(shards[i], stats, if won then st else shards[i].status))
  }

  function SettleWhole(s: State, at: nat): State
    requires at < |s.queue| && s.queue[at].SettleBody?
  {
    var m := s.queue[at];
    var failed := HasFailed(m.stats, m.retry);
    var from := Expected(m.isRollback);
    var to := if failed then Failed else if m.isRollback then RolledBack else Status.Succeeded;
    var won := Wins(s.row, from, to);
    var s1 := Counted(s, m.stats).(
      shards := RecountAll(s.shards, m.stats, won, if failed then ShardFailed else ShardSucceeded));
    Replace(Transition(s1, from, to), at, [])
  }

  function SettledShard(sh: Shard, m: Message): Shard
    requires m.SettleBody?
  {
    Recounted(sh, m.stats, if HasFailed(m.stats, m.retry) then ShardFailed else ShardSucceeded)
  }

  /** The state after the counts and the shard status are written, before the release moves on. */
  function Settled(s: State, m: Message): State
    requires m.SettleBody?
  {
    Counted(s, m.stats).(
      settlements := s.settlements + [Settlement(m.shard, m.stats, m.retry)],
      shards := if 1 <= m.shard <= |s.shards|
      then s.shards[m.shard - 1 := SettledShard(s.shards[m.shard - 1], m)]
      else s.shards)
  }

  /** Per-shard settlement.  `currentRead` and `nextRead` say whether the two shard reads succeed;
      `sent` whether the next dispatch is enqueued. */
  function SettleShard(s: State, at: nat, currentRead: bool, nextRead: bool, sent: bool): State
    requires at < |s.queue| && s.queue[at].SettleBody?
  {
    var m := s.queue[at];
    var failed := HasFailed(m.stats, m.retry);
    var s1 := Settled(s, m);
    if failed then Replace(Transition(s1, Executing, Failed), at, [])
    else
      var after := if currentRead && 1 <= m.shard <= |s.shards| then m.shard - 1 else 0;
      var next := if nextRead then NextPending(s1.shards, after) else None;
      if next.Some? then Replace(s1, at, Sent(DispatchMsg(next.value + 1, DISPATCH_RETRIES), sent))
      else Replace(Transition(s1, Executing, Status.Succeeded), at, [])
  }

  function FinalizeSettle(s: State, at: nat, currentRead: bool, nextRead: bool, sent: bool): State
    requires at < |s.queue| && s.queue[at].SettleBody?
  {
    var m := s.queue[at];
    if m.isRollback || m.shard == 0 then SettleWhole(s, at)
    else SettleShard(s, at, currentRead, nextRead, sent)
  }

  // ── Rollback execution ─────────────────────────────────────────────────────

  datatype RollbackOutcome = RollbackUnread | RollbackRun(online: seq<int>, createOk: set<int>, sent: bool)

  /** The distinct agents of the given tasks in first-seen order. */
  function Agents(tasks: seq<AgentTask>): seq<int> {
    if tasks == [] then []
    else
      var rest := Agents(tasks[..|tasks| - 1]);
      var a := tasks[|tasks| - 1].agent;
      if a in rest then rest else rest + [a]
  }

  /** Rollback task ids are unique per agent, so creating one twice fails. */
  function CreateRollbackTasks(existing: seq<AgentTask>, agents: seq<int>, createOk: set<int>): seq<AgentTask>
    decreases |agents|
  {
    if agents == [] then existing
    else if agents[0] in createOk && agents[0] !in Agents(existing)
    then CreateRollbackTasks(existing + [AgentTask(agents[0], TaskPending)], agents[1..], createOk)
    else CreateRollbackTasks(existing, agents[1..], createOk)
  }

  function DomainRows(shards: seq<Shard>): nat {
    if shards == [] then 0 else shards[0].domains + DomainRows(shards[1..])
  }

  function RollbackExec(s: State, at: nat, outcome: RollbackOutcome): State
    requires at < |s.queue| && s.queue[at].RollbackMsg?
  {
    var m := s.queue[at];
    if s.row.status != RollingBack then Replace(s, at, [])
    else match outcome
      case RollbackUnread => Replace(s, at, Retry(m))
      case RollbackRun(online, createOk, sent) =>
        var involved := Agents(ReleaseTasks(s));
        var agents := if involved != [] then involved else online;
        if agents == [] then Replace(Transition(s, RollingBack, Failed), at, Retry(m))
        else if DomainRows(s.shards) == 0 then Replace(s, at, Retry(m))
        else
          var s1 := s.(rollbackTasks := CreateRollbackTasks(s.rollbackTasks, agents, createOk));
          Replace(s1, at, Sent(FinalizeMsg(0, 0, true), sent))
  }

  // ── Operators and agents ───────────────────────────────────────────────────

  /** Rollback guards on the status it read, then swaps from that status. */
  function RollbackRequest(s: State, seen: Status, previousExists: bool, sent: bool): State {
    if !CanTransition(seen, RollingBack) || !previousExists || !Wins(s.row, seen, RollingBack) then s
    else
      var s1 := Transition(s, seen, RollingBack);
      s1.(queue := s1.queue + Sent(RollbackMsg(ROLLBACK_RETRIES), sent))
  }

  /** ReportTask overwrites the status of any task, finished or not; shard 0 names the rollback tasks. */
  function Report(s: State, shard: nat, task: nat, st: TaskStatus): State {
    if shard == 0 then
      if task < |s.rollbackTasks|
      then s.(rollbackTasks := s.rollbackTasks[task := s.rollbackTasks[task].(status := st)])
      else s
    else if shard <= |s.shards| && task < |s.shards[shard - 1].tasks| then
      var sh := s.shards[shard - 1];
      SetShard(s, shard, sh.(tasks := sh.tasks[task := sh.tasks[task].(status := st)]))
    else s
  }

  // ── Events and runs ────────────────────────────────────────────────────────

  datatype Event =
    | EPlanStart(at: nat, readOk: bool)
    | EPlanFinish(at: nat, plan: PlanOutcome)
    | EBuild(at: nat, build: BuildOutcome)
    | EDispatchStart(at: nat, readOk: bool)
    | EDispatchFinish(at: nat, dispatch: DispatchOutcome)
    | EFinalizeCheck(at: nat, readOk: bool, sent: bool)
    | EFinalizeSettle(at: nat, currentRead: bool, nextRead: bool, sent: bool)
    | ERollbackExec(at: nat, rollback: RollbackOutcome)
    | ELost(at: nat)
    | EPause
    | EResume
    | ECancel(seen: Status)
    | ERollback(seen: Status, previousExists: bool, sent: bool)
    | EReport(shard: nat, task: nat, status: TaskStatus)

  /** Which events can happen: a delivery needs its message, a plan has non-empty shards
      (they come from the planner), and a dispatch creates at most one task per domain task. */
  predicate Enabled(s: State, e: Event) {
    match e
    case EPlanStart(at, _) => at < |s.queue| && s.queue[at].PlanMsg?
    case EPlanFinish(at, plan) =>
      && at < |s.queue| && s.queue[at].PlanBody?
      && (plan.Planned? ==> plan.sizes != [] && 0 !in plan.sizes)
    case EBuild(at, _) => at < |s.queue| && s.queue[at].BuildMsg?
    case EDispatchStart(at, _) => at < |s.queue| && s.queue[at].DispatchMsg?
    case EDispatchFinish(at, d) =>
      && at < |s.queue| && s.queue[at].DispatchBody?
      && (d.Dispatched? && 1 <= s.queue[at].shard <= |s.shards| ==> |d.agents| <= s.shards[s.queue[at].shard - 1].domains)
    case EFinalizeCheck(at, _, _) => at < |s.queue| && s.queue[at].FinalizeMsg?
    case EFinalizeSettle(at, _, _, _) => at < |s.queue| && s.queue[at].SettleBody?
    case ERollbackExec(at, _) => at < |s.queue| && s.queue[at].RollbackMsg?
    case ELost(at) => at < |s.queue|
    case _ => true
  }

  function Apply(s: State, e: Event): State
    requires Enabled(s, e)
  {
    match e
    case EPlanStart(at, readOk) => PlanStart(s, at, readOk)
    case EPlanFinish(at, plan) => PlanFinish(s, at, plan)
    case EBuild(at, build) => Build(s, at, build)
    case EDispatchStart(at, readOk) => DispatchStart(s, at, readOk)
    case EDispatchFinish(at, dispatch) => DispatchFinish(s, at, dispatch)
    case EFinalizeCheck(at, readOk, sent) => FinalizeCheck(s, at, readOk, sent)
    case EFinalizeSettle(at, currentRead, nextRead, sent) => FinalizeSettle(s, at, currentRead, nextRead, sent)
    case ERollbackExec(at, rollback) => RollbackExec(s, at, rollback)
    case ELost(at) => Replace(s, at, [])
    case EPause => Transition(s, Executing, Paused)
    case EResume => Transition(s, Paused, Executing)
    case ECancel(seen) => Transition(s, seen, Cancelled)
    case ERollback(seen, previousExists, sent) => RollbackRequest(s, seen, previousExists, sent)
    case EReport(shard, task, status) => Report(s, shard, task, status)
  }

  /** `events` is a run from `s`: each event is enabled when it happens. */
  ghost predicate IsRun(s: State, events: seq<Event>)
    decreases |events|
  {
    events == [] || (Enabled(s, events[0]) && IsRun(Apply(s, events[0]), events[1..]))
  }

  function Exec(s: State, events: seq<Event>): State
    requires IsRun(s, events)
    decreases |events|
  {
    if events == [] then s else Exec(Apply(s, events[0]), events[1..])
  }

  /** The next-shard read of Finalize never fails in this run. */
  predicate ReadsSucceed(events: seq<Event>) {
    forall e :: e in events && e.EFinalizeSettle? ==> e.nextRead
  }
}
