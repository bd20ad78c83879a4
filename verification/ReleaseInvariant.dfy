/**
 What every run of the release protocol keeps: a single forward token, shards that
 are a settled prefix followed by at most one shard in flight and then untouched
 ones, counters that equal what was settled, and an artifact wherever one is needed.
 */
module ReleaseInvariant {
  import opened Wrappers
  import opened ReleaseStates
  import opened ReleaseProtocol

  // ── The forward token ──────────────────────────────────────────────────────

  /** Messages that move a release forward, as opposed to rolling it back. */
  predicate Forward(m: Message) {
    match m
    case FinalizeMsg(_, _, isRollback) => !isRollback
    case SettleBody(_, _, isRollback, _) => !isRollback
    case RollbackMsg(_) => false
    case _ => true
  }

  function Tokens(q: seq<Message>): nat {
    if q == [] then 0 else (if Forward(q[0]) then 1 else 0) + Tokens(q[1..])
  }

  lemma {:induction false} TokensAppend(p: seq<Message>, q: seq<Message>)
    ensures Tokens(p + q) == Tokens(p) + Tokens(q)
  {
    if p == [] {
      assert p + q == q;
    } else {
      assert (p + q)[1..] == p[1..] + q;
      TokensAppend(p[1..], q);
    }
  }

  lemma {:induction false} TokensMember(q: seq<Message>, m: Message)
    requires m in q && Forward(m)
    ensures Tokens(q) >= 1
  {
    if q[0] != m {
      TokensMember(q[1..], m);
    }
  }

  lemma TokensTake(q: seq<Message>, at: nat, added: seq<Message>)
    requires at < |q|
    ensures Tokens(Take(q, at) + added) == Tokens(q) - (if Forward(q[at]) then 1 else 0) + Tokens(added)
  {
    assert q == q[..at] + ([q[at]] + q[at + 1..]);
    TokensAppend(q[..at], [q[at]] + q[at + 1..]);
    TokensAppend([q[at]], q[at + 1..]);
    TokensAppend(q[..at], q[at + 1..]);
    TokensAppend(Take(q, at), added);
  }

  /** Delivering the only forward token leaves none behind. */
  lemma OthersAreNotForward(q: seq<Message>, at: nat)
    requires at < |q| && Forward(q[at]) && Tokens(q) <= 1
    ensures forall m :: m in Take(q, at) ==> !Forward(m)
  {
    TokensTake(q, at, []);
    assert Take(q, at) + [] == Take(q, at);
    forall m | m in Take(q, at)
      ensures !Forward(m)
    {
      if Forward(m) {
        TokensMember(Take(q, at), m);
      }
    }
  }

  // ── Shards ─────────────────────────────────────────────────────────────────

  /** The settlement recorded no failed, timed-out or unfinished task. */
  predicate Clean(se: Settlement) {
    se.stats.failed == 0 && se.stats.timeout == 0 && se.stats.inProgress == 0
  }

  predicate Untouched(sh: Shard) {
    sh.status == ShardPending && sh.tasks == [] && sh.success == 0 && sh.failure == 0
  }

  /** The statistics speak of no more tasks than there are. */
  predicate Consistent(stats: Stats, tasks: nat) {
    stats.succeeded + stats.failed + stats.timeout + stats.inProgress <= stats.total <= tasks
  }

  predicate SettledAs(sh: Shard, se: Settlement, shard: nat) {
    && se.shard == shard
    && sh.status == (if Clean(se) then ShardSucceeded else ShardFailed)
    && sh.success == se.stats.succeeded
    && sh.failure == se.stats.failed + se.stats.timeout
    && Consistent(se.stats, |sh.tasks|)
  }

  /** The last settlement, if any, let the release continue. */
  predicate MayContinue(s: State) {
    s.settlements == [] || Clean(s.settlements[|s.settlements| - 1])
  }

  /** Shards 1..n were settled in order, only the last of them may have failed; shard n+1 may be
      in flight; later ones are untouched. */
  predicate ShardsInOrder(s: State) {
    var n := |s.settlements|;
    && n <= |s.shards|
    && (forall j :: 0 <= j < n ==> SettledAs(s.shards[j], s.settlements[j], j + 1))
    && (forall j :: 0 <= j < n - 1 ==> Clean(s.settlements[j]))
    && (forall j :: n < j < |s.shards| ==> Untouched(s.shards[j]))
    && (n < |s.shards| ==>
          && s.shards[n].status in {ShardPending, ShardDispatching, ShardRunning}
          && s.shards[n].success == 0 && s.shards[n].failure == 0
          && (!MayContinue(s) ==> Untouched(s.shards[n])))
    && (forall j :: 0 <= j < |s.shards| ==> |s.shards[j].tasks| <= s.shards[j].domains)
    && s.rollbackTasks == []
  }

  predicate InFlight(s: State, shard: nat, allowed: set<ShardStatus>) {
    && shard == |s.settlements| + 1
    && shard <= |s.shards|
    && MayContinue(s)
    && s.shards[shard - 1].status in allowed
    && (s.shards[shard - 1].status != ShardRunning ==> s.shards[shard - 1].tasks == [])
  }

  /** What a queued message promises about the state, before any rollback. */
  predicate TokenFits(s: State, m: Message) {
    match m
    case PlanMsg(_) => s.row.status == Pending ==> s.shards == [] && s.totalDomains.None?
    case PlanBody(_) => s.row.status != Pending && s.shards == [] && s.totalDomains.None?
    case BuildMsg(_) => s.settlements == [] && s.shards != [] && forall j :: 0 <= j < |s.shards| ==> Untouched(s.shards[j])
    case DispatchMsg(shard, _) => InFlight(s, shard, {ShardPending, ShardDispatching})
    case DispatchBody(shard, _, _) => InFlight(s, shard, {ShardPending, ShardDispatching})
    case FinalizeMsg(shard, _, isRollback) => !isRollback && InFlight(s, shard, {ShardRunning})
    case SettleBody(shard, retry, isRollback, stats) =>
      && !isRollback
      && InFlight(s, shard, {ShardRunning})
      && Consistent(stats, |s.shards[shard - 1].tasks|)
      && (stats.inProgress > 0 ==> retry >= MAX_FINALIZE_RETRIES)
    case RollbackMsg(_) => false
  }

  // ── Counters ───────────────────────────────────────────────────────────────

  function SettledSuccess(ses: seq<Settlement>): nat {
    if ses == [] then 0 else SettledSuccess(ses[..|ses| - 1]) + ses[|ses| - 1].stats.succeeded
  }

  function SettledFailure(ses: seq<Settlement>): nat {
    if ses == [] then 0
    else SettledFailure(ses[..|ses| - 1]) + ses[|ses| - 1].stats.failed + ses[|ses| - 1].stats.timeout
  }

  predicate CountersMatch(s: State) {
    && s.success == SettledSuccess(s.settlements)
    && s.failure == SettledFailure(s.settlements)
    && (s.totalDomains.Some? ==> s.totalDomains.value == DomainRows(s.shards))
  }

  // ── The invariant ──────────────────────────────────────────────────────────

  predicate NeedsArtifact(st: Status) {
    st in {Ready, Executing, Paused, Status.Succeeded}
  }

  predicate NamesShard(m: Message) {
    Forward(m) && (m.DispatchMsg? || m.DispatchBody? || m.FinalizeMsg? || m.SettleBody?)
  }

  predicate ArtifactPresent(s: State) {
    && (NeedsArtifact(s.row.status) ==> s.artifact.Some?)
    && (forall m :: m in s.queue && NamesShard(m) ==> s.artifact.Some?)
    && (forall m :: m in s.queue && m.DispatchBody? ==> m.artifactRead.Some?)
  }

  /** A forward message about a shard carries its id, which is never 0. */
  predicate NamesItsShard(m: Message) {
    NamesShard(m) ==> m.shard > 0
  }

  /** Queue facts that hold in every phase: one forward token, per-shard finalizes name a shard,
      and rollback messages exist only once a rollback has started. */
  predicate QueueSound(s: State) {
    && Tokens(s.queue) <= 1
    && (forall m :: m in s.queue ==> NamesItsShard(m))
    && (forall m :: m in s.queue && !Forward(m) ==> RollbackStarted(s.row))
  }

  /** What holds until a rollback starts. */
  predicate ForwardPhase(s: State) {
    && ShardsInOrder(s)
    && CountersMatch(s)
    && |s.queue| <= 1
    && (s.queue != [] ==> TokenFits(s, s.queue[0]))
    && (s.row.status == Pending ==> s.shards == [])
  }

  predicate Inv(s: State) {
    && ValidRow(s.row)
    && QueueSound(s)
    && ArtifactPresent(s)
    && (!RollbackStarted(s.row) ==> ForwardPhase(s))
  }

  /** A succeeded release has every shard settled clean. */
  predicate SuccessIsTotal(s: State) {
    s.row.status == Status.Succeeded ==>
      && s.shards != []
      && |s.settlements| == |s.shards|
      && MayContinue(s)
  }

  lemma CreatedIsFine()
    ensures Inv(CREATED) && SuccessIsTotal(CREATED)
  {
  }

  // ── Queue bookkeeping, the same for every delivery ─────────────────────────

  predicate AddedFits(s': State, m: Message) {
    && NamesItsShard(m)
    && (NamesShard(m) ==> s'.artifact.Some?)
    && (m.DispatchBody? ==> m.artifactRead.Some?)
    && (!Forward(m) ==> RollbackStarted(s'.row))
  }

  /** Delivering a message and sending at most one of the same direction keeps the queue sound. */
  lemma DeliveryKeepsQueue(s: State, s': State, at: nat, added: seq<Message>)
    requires QueueSound(s) && ArtifactPresent(s) && at < |s.queue|
    requires s'.queue == Take(s.queue, at) + added
    requires |added| <= 1
    requires added != [] ==> AddedFits(s', added[0]) && (Forward(added[0]) ==> Forward(s.queue[at]))
    requires RollbackStarted(s.row) ==> RollbackStarted(s'.row)
    requires s.artifact.Some? ==> s'.artifact.Some?
    requires NeedsArtifact(s'.row.status) ==> s'.artifact.Some?
    ensures QueueSound(s') && ArtifactPresent(s')
  {
    TokensTake(s.queue, at, added);
    if added != [] {
      assert added == [added[0]];
      assert Tokens(added) == if Forward(added[0]) then 1 else 0;
    }
    forall m | m in s'.queue
      ensures m in s.queue || (added != [] && m == added[0])
    {
    }
  }

  /** Before a rollback the queue is just the token being delivered. */
  lemma OnlyTheToken(s: State, at: nat, added: seq<Message>)
    requires |s.queue| <= 1 && at < |s.queue|
    ensures at == 0 && Take(s.queue, at) + added == added
  {
  }

  // ── Plan ───────────────────────────────────────────────────────────────────

  lemma PlanStartKeepsPhase(s: State, at: nat, readOk: bool)
    requires ForwardPhase(s) && Enabled(s, EPlanStart(at, readOk))
    ensures ForwardPhase(PlanStart(s, at, readOk))
  {
    OnlyTheToken(s, at, PlanStart(s, at, readOk).queue);
  }

  function AddedByPlanStart(s: State, m: Message, readOk: bool): seq<Message>
    requires m.PlanMsg?
  {
    if readOk && Wins(s.row, Pending, Planning) then [PlanBody(m.left)] else Retry(m)
  }

  lemma PlanStartKeepsQueue(s: State, at: nat, readOk: bool)
    requires QueueSound(s) && ArtifactPresent(s) && Enabled(s, EPlanStart(at, readOk))
    ensures QueueSound(PlanStart(s, at, readOk)) && ArtifactPresent(PlanStart(s, at, readOk))
  {
    CasFacts(s.row, Pending, Planning);
    DeliveryKeepsQueue(s, PlanStart(s, at, readOk), at, AddedByPlanStart(s, s.queue[at], readOk));
  }

  lemma PlanStartKeepsInv(s: State, at: nat, readOk: bool)
    requires Inv(s) && Enabled(s, EPlanStart(at, readOk))
    ensures Inv(PlanStart(s, at, readOk))
  {
    CasFacts(s.row, Pending, Planning);
    PlanStartKeepsQueue(s, at, readOk);
    if !RollbackStarted(s.row) {
      PlanStartKeepsPhase(s, at, readOk);
    }
  }

  lemma {:induction false} RowsOfNewShards(sizes: seq<nat>)
    ensures DomainRows(NewShards(sizes)) == Sum(sizes)
  {
    if sizes != [] {
      assert NewShards(sizes)[1..] == NewShards(sizes[1..]);
      RowsOfNewShards(sizes[1..]);
    }
  }

  lemma PlannedKeepsPhase(s: State, s': State, sizes: seq<nat>)
    requires ForwardPhase(s) && s.shards == [] && s.totalDomains.None?
    requires s'.shards == NewShards(sizes) && s'.settlements == s.settlements && s'.rollbackTasks == s.rollbackTasks
    requires s'.success == s.success && s'.failure == s.failure
    requires s'.totalDomains in {None, Some(Sum(sizes))}
    ensures ShardsInOrder(s') && CountersMatch(s')
  {
    RowsOfNewShards(sizes);
  }

  lemma PlanFinishKeepsPhase(s: State, at: nat, outcome: PlanOutcome)
    requires ForwardPhase(s) && Enabled(s, EPlanFinish(at, outcome))
    ensures ForwardPhase(PlanFinish(s, at, outcome))
  {
    var s' := PlanFinish(s, at, outcome);
    OnlyTheToken(s, at, s'.queue);
    assert TokenFits(s, s.queue[0]);
    if !outcome.PlanUnread? {
      assert s'.shards == NewShards(outcome.sizes);
      PlannedKeepsPhase(s, s', outcome.sizes);
    }
  }

  lemma PlanFinishKeepsQueue(s: State, at: nat, outcome: PlanOutcome)
    requires QueueSound(s) && ArtifactPresent(s) && Enabled(s, EPlanFinish(at, outcome))
    ensures QueueSound(PlanFinish(s, at, outcome)) && ArtifactPresent(PlanFinish(s, at, outcome))
  {
    var m := s.queue[at];
    CasFacts(s.row, Planning, Failed);
    DeliveryKeepsQueue(s, PlanFinish(s, at, outcome), at,
                       if outcome.Planned? then [BuildMsg(BUILD_RETRIES)] else Retry(PlanMsg(m.left)));
  }

  lemma PlanFinishKeepsInv(s: State, at: nat, outcome: PlanOutcome)
    requires Inv(s) && Enabled(s, EPlanFinish(at, outcome))
    ensures Inv(PlanFinish(s, at, outcome))
  {
    CasFacts(s.row, Planning, Failed);
    PlanFinishKeepsQueue(s, at, outcome);
    if !RollbackStarted(s.row) {
      PlanFinishKeepsPhase(s, at, outcome);
    }
  }

  // ── Build ──────────────────────────────────────────────────────────────────

  function AddedByBuild(s: State, m: Message, outcome: BuildOutcome): seq<Message>
    requires m.BuildMsg?
  {
    if outcome.BuildFailed? || !Wins(s.row, Planning, Ready) || !outcome.listOk then Retry(m)
    else Sent(DispatchMsg(1, DISPATCH_RETRIES), outcome.sent && |s.shards| > 0)
  }

  lemma BuildKeepsPhase(s: State, at: nat, outcome: BuildOutcome)
    requires ForwardPhase(s) && Enabled(s, EBuild(at, outcome))
    ensures ForwardPhase(Build(s, at, outcome))
  {
    OnlyTheToken(s, at, AddedByBuild(s, s.queue[at], outcome));
    assert Build(s, at, outcome).queue == AddedByBuild(s, s.queue[at], outcome);
  }

  lemma BuildKeepsInv(s: State, at: nat, outcome: BuildOutcome)
    requires Inv(s) && Enabled(s, EBuild(at, outcome))
    ensures Inv(Build(s, at, outcome))
  {
    var s' := Build(s, at, outcome);
    CasFacts(s.row, Planning, Ready);
    DeliveryKeepsQueue(s, s', at, AddedByBuild(s, s.queue[at], outcome));
    if !RollbackStarted(s.row) {
      BuildKeepsPhase(s, at, outcome);
    }
  }

  // ── Dispatch ───────────────────────────────────────────────────────────────

  function AddedByStart(s: State, m: Message, readOk: bool): seq<Message>
    requires m.DispatchMsg?
  {
    if readOk then [DispatchBody(m.shard, m.left, s.artifact)] else Retry(m)
  }

  lemma DispatchStartKeepsQueue(s: State, at: nat, readOk: bool)
    requires QueueSound(s) && ArtifactPresent(s) && Enabled(s, EDispatchStart(at, readOk))
    ensures QueueSound(DispatchStart(s, at, readOk)) && ArtifactPresent(DispatchStart(s, at, readOk))
  {
    var m := s.queue[at];
    assert m in s.queue;
    CasFacts(s.row, Ready, Executing);
    DeliveryKeepsQueue(s, DispatchStart(s, at, readOk), at, AddedByStart(s, m, readOk));
  }

  lemma DispatchStartKeepsPhase(s: State, m: Message, readOk: bool)
    requires ForwardPhase(s) && m.DispatchMsg? && s.queue == [m]
    ensures ForwardPhase(DispatchStart(s, 0, readOk))
  {
    OnlyTheToken(s, 0, AddedByStart(s, m, readOk));
    assert TokenFits(s, m);
  }

  lemma DispatchStartKeepsInv(s: State, at: nat, readOk: bool)
    requires Inv(s) && Enabled(s, EDispatchStart(at, readOk))
    ensures Inv(DispatchStart(s, at, readOk))
  {
    DispatchStartKeepsQueue(s, at, readOk);
    CasFacts(s.row, Ready, Executing);
    if !RollbackStarted(s.row) {
      DispatchStartKeepsPhase(s, s.queue[at], readOk);
    }
  }

  /** Changing one shard's status, tasks or counts leaves the domain rows alone. */
  lemma {:induction false} RowsUnchanged(shards: seq<Shard>, i: nat, sh: Shard)
    requires i < |shards| && sh.domains == shards[i].domains
    ensures DomainRows(shards[i := sh]) == DomainRows(shards)
  {
    if i > 0 {
      assert shards[i := sh][1..] == shards[1..][i - 1 := sh];
      RowsUnchanged(shards[1..], i - 1, sh);
    }
  }

  /** The shard in flight may change its status and gain tasks. */
  lemma InFlightMayChange(s: State, s': State, sh: Shard)
    requires ShardsInOrder(s) && MayContinue(s) && |s.settlements| < |s.shards|
    requires s'.shards == s.shards[|s.settlements| := sh]
    requires s'.settlements == s.settlements && s'.rollbackTasks == s.rollbackTasks
    requires sh.status in {ShardPending, ShardDispatching, ShardRunning}
    requires sh.success == 0 && sh.failure == 0 && |sh.tasks| <= sh.domains
    ensures ShardsInOrder(s')
  {
  }

  function DispatchedShard(sh: Shard, outcome: DispatchOutcome): Shard {
    match outcome
    case DispatchErrored => sh.(status := ShardDispatching)
    case Dispatched(agents, _) => sh.(status := ShardRunning, tasks := sh.tasks + PendingTasks(agents))
  }

  function AddedByDispatch(m: Message, outcome: DispatchOutcome): seq<Message>
    requires m.DispatchBody?
  {
    match outcome
    case DispatchErrored => Retry(DispatchMsg(m.shard, m.left))
    case Dispatched(_, sent) => Sent(FinalizeMsg(m.shard, 0, false), sent)
  }

  lemma DispatchFinishIs(s: State, at: nat, outcome: DispatchOutcome)
    requires at < |s.queue| && s.queue[at].DispatchBody? && s.queue[at].artifactRead.Some?
    ensures var m := s.queue[at];
            DispatchFinish(s, at, outcome) == s.(
              shards := if 1 <= m.shard <= |s.shards|
                        then s.shards[m.shard - 1 := DispatchedShard(s.shards[m.shard - 1], outcome)]
                        else s.shards,
              queue := Take(s.queue, at) + AddedByDispatch(m, outcome))
  {
    var m := s.queue[at];
    if 1 <= m.shard <= |s.shards| {
      var i := m.shard - 1;
      assert DispatchFinish(s, at, outcome).shards == s.shards[i := DispatchedShard(s.shards[i], outcome)];
    }
  }

  lemma DispatchFinishKeepsPhase(s: State, s': State, m: Message, outcome: DispatchOutcome)
    requires ForwardPhase(s) && s.queue == [m] && Enabled(s, EDispatchFinish(0, outcome))
    requires 1 <= m.shard <= |s.shards|
    requires s' == s.(shards := s.shards[m.shard - 1 := DispatchedShard(s.shards[m.shard - 1], outcome)],
                      queue := AddedByDispatch(m, outcome))
    ensures ForwardPhase(s')
  {
    var sh := DispatchedShard(s.shards[m.shard - 1], outcome);
    RowsUnchanged(s.shards, m.shard - 1, sh);
    InFlightMayChange(s, s', sh);
  }

  lemma DispatchFinishKeepsQueue(s: State, at: nat, outcome: DispatchOutcome)
    requires QueueSound(s) && ArtifactPresent(s) && Enabled(s, EDispatchFinish(at, outcome))
    ensures s.queue[at].artifactRead.Some?
    ensures QueueSound(DispatchFinish(s, at, outcome)) && ArtifactPresent(DispatchFinish(s, at, outcome))
  {
    var s', m := DispatchFinish(s, at, outcome), s.queue[at];
    assert m in s.queue;
    DispatchFinishIs(s, at, outcome);
    DeliveryKeepsQueue(s, s', at, AddedByDispatch(m, outcome));
  }

  lemma DispatchFinishKeepsInv(s: State, at: nat, outcome: DispatchOutcome)
    requires Inv(s) && Enabled(s, EDispatchFinish(at, outcome))
    ensures Inv(DispatchFinish(s, at, outcome))
  {
    DispatchFinishKeepsQueue(s, at, outcome);
    var s', m := DispatchFinish(s, at, outcome), s.queue[at];
    DispatchFinishIs(s, at, outcome);
    if !RollbackStarted(s.row) {
      OnlyTheToken(s, at, AddedByDispatch(m, outcome));
      assert s.queue == [m] && TokenFits(s, m);
      DispatchFinishKeepsPhase(s, s', m, outcome);
    }
  }

  // ── Finalize ───────────────────────────────────────────────────────────────

  lemma {:induction false} StatsAreConsistent(tasks: seq<AgentTask>)
    ensures Consistent(StatsOf(tasks), |tasks|)
  {
    if tasks != [] {
      StatsAreConsistent(tasks[1..]);
    }
  }

  function AddedByCheck(s: State, m: Message, readOk: bool, sent: bool): seq<Message>
    requires m.FinalizeMsg?
  {
    if !readOk || s.row.status != Expected(m.isRollback) then []
    else
      var stats := StatsRead(s, m);
      if stats.inProgress > 0 && m.retry < MAX_FINALIZE_RETRIES
      then Sent(FinalizeMsg(m.shard, m.retry + 1, m.isRollback), sent)
      else [SettleBody(m.shard, m.retry, m.isRollback, stats)]
  }

  lemma FinalizeCheckIs(s: State, at: nat, readOk: bool, sent: bool)
    requires at < |s.queue| && s.queue[at].FinalizeMsg?
    ensures FinalizeCheck(s, at, readOk, sent) == Replace(s, at, AddedByCheck(s, s.queue[at], readOk, sent))
  {
  }

  lemma FinalizeCheckKeepsPhase(s: State, m: Message, readOk: bool, sent: bool)
    requires ForwardPhase(s) && m.FinalizeMsg? && s.queue == [m]
    ensures ForwardPhase(s.(queue := AddedByCheck(s, m, readOk, sent)))
  {
    assert TokenFits(s, m);
    StatsAreConsistent(ShardTasks(s, m.shard));
  }

  lemma FinalizeCheckKeepsQueue(s: State, at: nat, readOk: bool, sent: bool)
    requires QueueSound(s) && ArtifactPresent(s) && Enabled(s, EFinalizeCheck(at, readOk, sent))
    ensures FinalizeCheck(s, at, readOk, sent) == Replace(s, at, AddedByCheck(s, s.queue[at], readOk, sent))
    ensures QueueSound(FinalizeCheck(s, at, readOk, sent)) && ArtifactPresent(FinalizeCheck(s, at, readOk, sent))
  {
    var s', m := FinalizeCheck(s, at, readOk, sent), s.queue[at];
    assert m in s.queue;
    DeliveryKeepsQueue(s, s', at, AddedByCheck(s, m, readOk, sent));
  }

  lemma FinalizeCheckKeepsInv(s: State, at: nat, readOk: bool, sent: bool)
    requires Inv(s) && Enabled(s, EFinalizeCheck(at, readOk, sent))
    ensures Inv(FinalizeCheck(s, at, readOk, sent))
  {
    FinalizeCheckKeepsQueue(s, at, readOk, sent);
    if !RollbackStarted(s.row) {
      var m := s.queue[at];
      OnlyTheToken(s, at, AddedByCheck(s, m, readOk, sent));
      assert s.queue == [m];
      FinalizeCheckKeepsPhase(s, m, readOk, sent);
    }
  }

  /** While the shards are in order, the next pending shard is the one right after the settled ones,
      from wherever among the settled ones the search starts. */
  lemma {:induction false} NextIsAdjacent(shards: seq<Shard>, after: nat, n: nat)
    requires after < n <= |shards|
    requires forall j :: after < j < n ==> shards[j].status != ShardPending
    requires n < |shards| ==> shards[n].status == ShardPending
    ensures NextPending(shards, after) == if n < |shards| then Some(n) else None
    decreases n - after
  {
    if after + 1 < n {
      NextIsAdjacent(shards, after + 1, n);
    }
  }

  lemma SettledInOrder(s: State, m: Message)
    requires ShardsInOrder(s) && m.SettleBody? && TokenFits(s, m)
    ensures ShardsInOrder(Settled(s, m))
    ensures MayContinue(Settled(s, m)) <==> !HasFailed(m.stats, m.retry)
  {
    var s1, n := Settled(s, m), |s.settlements|;
    assert SettledAs(s1.shards[n], s1.settlements[n], n + 1);
    assert forall j :: 0 <= j < n ==> SettledAs(s.shards[j], s.settlements[j], j + 1);
  }

  lemma SettledCountersMatch(s: State, m: Message)
    requires CountersMatch(s) && m.SettleBody? && 1 <= m.shard <= |s.shards|
    ensures CountersMatch(Settled(s, m))
  {
    RowsUnchanged(s.shards, m.shard - 1, SettledShard(s.shards[m.shard - 1], m));
    assert Settled(s, m).settlements[..|s.settlements|] == s.settlements;
  }

  /** What a per-shard settlement does before any rollback: it records the shard, then fails the
      release, dispatches exactly the next shard, or declares success. */
  function AfterSettle(s: State, m: Message, nextRead: bool, sent: bool): State
    requires m.SettleBody? && 1 <= m.shard <= |s.shards|
  {
    var s1 := Settled(s, m);
    if HasFailed(m.stats, m.retry) then Transition(s1, Executing, Failed).(queue := [])
    else if nextRead && m.shard < |s.shards| then s1.(queue := Sent(DispatchMsg(m.shard + 1, DISPATCH_RETRIES), sent))
    else Transition(s1, Executing, Status.Succeeded).(queue := [])
  }

  lemma SettleShardIs(s: State, m: Message, currentRead: bool, nextRead: bool, sent: bool)
    requires ForwardPhase(s) && m.SettleBody? && s.queue == [m]
    ensures m.shard > 0 && m.shard <= |s.shards|
    ensures FinalizeSettle(s, 0, currentRead, nextRead, sent) == AfterSettle(s, m, nextRead, sent)
  {
    assert TokenFits(s, m);
    var s1 := Settled(s, m);
    if !HasFailed(m.stats, m.retry) {
      assert forall j :: 0 <= j < m.shard ==> s1.shards[j].status != ShardPending by {
        assert forall j :: 0 <= j < m.shard - 1 ==> SettledAs(s.shards[j], s.settlements[j], j + 1);
      }
      NextIsAdjacent(s1.shards, if currentRead then m.shard - 1 else 0, m.shard);
    }
    OnlyTheToken(s, 0, AfterSettle(s, m, nextRead, sent).queue);
  }

  lemma NextShardFits(s: State, m: Message, s1: State)
    requires ShardsInOrder(s) && m.SettleBody? && TokenFits(s, m) && s1 == Settled(s, m)
    requires !HasFailed(m.stats, m.retry) && m.shard < |s.shards|
    ensures InFlight(s1, m.shard + 1, {ShardPending, ShardDispatching})
  {
    SettledInOrder(s, m);
    assert Untouched(s.shards[m.shard]);
  }

  lemma AfterSettleKeepsPhase(s: State, m: Message, nextRead: bool, sent: bool)
    requires ForwardPhase(s) && m.SettleBody? && s.queue == [m] && 1 <= m.shard <= |s.shards|
    ensures ForwardPhase(AfterSettle(s, m, nextRead, sent))
  {
    assert TokenFits(s, m);
    SettledInOrder(s, m);
    SettledCountersMatch(s, m);
    if !HasFailed(m.stats, m.retry) && m.shard < |s.shards| {
      NextShardFits(s, m, Settled(s, m));
    }
    SettledPhase(s, Settled(s, m), AfterSettle(s, m, nextRead, sent));
  }

  /** The rows are in order and the queue is empty or holds the next dispatch. */
  lemma SettledPhase(s: State, s1: State, s': State)
    requires ShardsInOrder(s1) && CountersMatch(s1) && s.shards != [] && |s1.shards| == |s.shards|
    requires s' == s1.(row := s'.row, queue := s'.queue) && |s'.queue| <= 1 && s'.row.status != Pending
    requires s'.queue != [] ==> s'.queue[0].DispatchMsg? && InFlight(s1, s'.queue[0].shard, {ShardPending, ShardDispatching})
    ensures ForwardPhase(s')
  {
  }

  /** What a settlement leaves in the queue, in any phase. */
  function AddedBySettle(s: State, m: Message, currentRead: bool, nextRead: bool, sent: bool): seq<Message>
    requires m.SettleBody?
  {
    if m.isRollback || HasFailed(m.stats, m.retry) then []
    else
      var known := 1 <= m.shard <= |s.shards|;
      var shards := if known then s.shards[m.shard - 1 := SettledShard(s.shards[m.shard - 1], m)] else s.shards;
      var after := if currentRead && known then m.shard - 1 else 0;
      var next := if nextRead then NextPending(shards, after) else None;
      if next.Some? then Sent(DispatchMsg(next.value + 1, DISPATCH_RETRIES), sent) else []
  }

  lemma SettleAdds(s: State, at: nat, currentRead: bool, nextRead: bool, sent: bool)
    requires at < |s.queue| && s.queue[at].SettleBody? && NamesItsShard(s.queue[at])
    ensures FinalizeSettle(s, at, currentRead, nextRead, sent).queue
         == Take(s.queue, at) + AddedBySettle(s, s.queue[at], currentRead, nextRead, sent)
  {
  }

  /** A row change that neither starts a rollback nor needs an artifact that was not needed before. */
  predicate QuietChange(r: Row, r': Row) {
    && (ValidRow(r) ==> ValidRow(r'))
    && RollbackStarted(r') == RollbackStarted(r)
    && (NeedsArtifact(r'.status) ==> NeedsArtifact(r.status))
  }

  lemma ArtifactEdges(from: Status, to: Status)
    requires CanTransition(from, to) && to !in {RollingBack, Ready}
    requires to == Executing ==> from != Pending && from != Planning
    ensures NeedsArtifact(to) ==> NeedsArtifact(from)
  {
  }

  lemma QuietSwap(r: Row, from: Status, to: Status)
    requires to !in {RollingBack, Ready} && (to == Executing ==> from != Pending && from != Planning)
    ensures QuietChange(r, Cas(r, from, to))
  {
    if Wins(r, from, to) {
      CasFacts(r, from, to);
      ArtifactEdges(from, to);
    }
  }

  lemma SettleWholeRow(s: State, at: nat)
    requires at < |s.queue| && s.queue[at].SettleBody?
    ensures SettleWhole(s, at).artifact == s.artifact && QuietChange(s.row, SettleWhole(s, at).row)
  {
    var m := s.queue[at];
    var to := if HasFailed(m.stats, m.retry) then Failed else if m.isRollback then RolledBack else Status.Succeeded;
    QuietSwap(s.row, Expected(m.isRollback), to);
  }

  lemma SettleShardRow(s: State, at: nat, currentRead: bool, nextRead: bool, sent: bool)
    requires at < |s.queue| && s.queue[at].SettleBody?
    ensures var s' := SettleShard(s, at, currentRead, nextRead, sent);
            s'.artifact == s.artifact && QuietChange(s.row, s'.row)
  {
    QuietSwap(s.row, Executing, if HasFailed(s.queue[at].stats, s.queue[at].retry) then Failed else Status.Succeeded);
  }

  lemma SettleRow(s: State, at: nat, currentRead: bool, nextRead: bool, sent: bool)
    requires at < |s.queue| && s.queue[at].SettleBody?
    ensures var s' := FinalizeSettle(s, at, currentRead, nextRead, sent);
            s'.artifact == s.artifact && QuietChange(s.row, s'.row)
  {
    SettleWholeRow(s, at);
    SettleShardRow(s, at, currentRead, nextRead, sent);
  }

  lemma SettledAddsFit(s: State, s': State, m: Message, currentRead: bool, nextRead: bool, sent: bool)
    requires m.SettleBody? && m in s.queue && QueueSound(s) && ArtifactPresent(s) && s'.artifact == s.artifact
    ensures var added := AddedBySettle(s, m, currentRead, nextRead, sent);
            |added| <= 1 && (added != [] ==> AddedFits(s', added[0]) && Forward(m))
  {
  }

  lemma FinalizeSettleKeepsQueue(s: State, s': State, at: nat, currentRead: bool, nextRead: bool, sent: bool)
    requires QueueSound(s) && ArtifactPresent(s) && at < |s.queue| && s.queue[at].SettleBody?
    requires s'.queue == Take(s.queue, at) + AddedBySettle(s, s.queue[at], currentRead, nextRead, sent)
    requires s'.artifact == s.artifact && QuietChange(s.row, s'.row)
    ensures QueueSound(s') && ArtifactPresent(s')
  {
    assert s.queue[at] in s.queue;
    SettledAddsFit(s, s', s.queue[at], currentRead, nextRead, sent);
    DeliveryKeepsQueue(s, s', at, AddedBySettle(s, s.queue[at], currentRead, nextRead, sent));
  }

  lemma FinalizeSettleKeepsPhase(s: State, at: nat, currentRead: bool, nextRead: bool, sent: bool)
    requires ForwardPhase(s) && at < |s.queue| && s.queue[at].SettleBody?
    ensures ForwardPhase(FinalizeSettle(s, at, currentRead, nextRead, sent))
  {
    var m := s.queue[at];
    assert s.queue == [m] && at == 0;
    SettleShardIs(s, m, currentRead, nextRead, sent);
    AfterSettleKeepsPhase(s, m, nextRead, sent);
  }

  lemma FinalizeSettleKeepsInv(s: State, at: nat, currentRead: bool, nextRead: bool, sent: bool)
    requires Inv(s) && Enabled(s, EFinalizeSettle(at, currentRead, nextRead, sent))
    ensures Inv(FinalizeSettle(s, at, currentRead, nextRead, sent))
  {
    var s' := FinalizeSettle(s, at, currentRead, nextRead, sent);
    assert s.queue[at] in s.queue;
    SettleRow(s, at, currentRead, nextRead, sent);
    SettleAdds(s, at, currentRead, nextRead, sent);
    FinalizeSettleKeepsQueue(s, s', at, currentRead, nextRead, sent);
    if !RollbackStarted(s.row) {
      FinalizeSettleKeepsPhase(s, at, currentRead, nextRead, sent);
    }
  }

  // ── Rollback handlers, operators, agents, losses ───────────────────────────

  function AddedByRollback(s: State, m: Message, outcome: RollbackOutcome): seq<Message>
    requires m.RollbackMsg?
  {
    if s.row.status != RollingBack then []
    else match outcome
      case RollbackUnread => Retry(m)
      case RollbackRun(online, _, sent) =>
        if (Agents(ReleaseTasks(s)) == [] && online == []) || DomainRows(s.shards) == 0 then Retry(m)
        else Sent(FinalizeMsg(0, 0, true), sent)
  }

  lemma RollbackExecAdds(s: State, at: nat, outcome: RollbackOutcome)
    requires at < |s.queue| && s.queue[at].RollbackMsg?
    ensures var s' := RollbackExec(s, at, outcome);
            && s'.queue == Take(s.queue, at) + AddedByRollback(s, s.queue[at], outcome)
            && s'.artifact == s.artifact && QuietChange(s.row, s'.row)
  {
    QuietSwap(s.row, RollingBack, Failed);
  }

  lemma RollbackExecKeepsInv(s: State, at: nat, outcome: RollbackOutcome)
    requires Inv(s) && Enabled(s, ERollbackExec(at, outcome))
    ensures Inv(RollbackExec(s, at, outcome))
    ensures RollbackStarted(s.row)
  {
    assert s.queue[at] in s.queue;
    RollbackExecAdds(s, at, outcome);
    DeliveryKeepsQueue(s, RollbackExec(s, at, outcome), at, AddedByRollback(s, s.queue[at], outcome));
  }

  lemma LostKeepsInv(s: State, at: nat)
    requires Inv(s) && at < |s.queue|
    ensures Inv(Replace(s, at, []))
  {
    DeliveryKeepsQueue(s, Replace(s, at, []), at, []);
    if !RollbackStarted(s.row) {
      OnlyTheToken(s, at, []);
    }
  }

  lemma OrderIgnoresRow(s: State, s': State)
    requires ForwardPhase(s) && s' == s.(row := s'.row) && s'.row.status != Pending
    ensures ForwardPhase(s')
  {
    assert s.queue != [] ==> TokenFits(s, s.queue[0]);
  }

  lemma OperatorKeepsInv(s: State, from: Status, to: Status)
    requires Inv(s) && to in {Paused, Executing, Cancelled} && (to == Executing ==> from == Paused)
    ensures Inv(Transition(s, from, to))
  {
    QuietSwap(s.row, from, to);
    var s' := Transition(s, from, to);
    assert s'.queue == s.queue && s'.shards == s.shards && s'.settlements == s.settlements;
    if !RollbackStarted(s.row) && Wins(s.row, from, to) {
      OrderIgnoresRow(s, s');
    }
  }

  lemma RollbackRequestKeepsInv(s: State, seen: Status, previousExists: bool, sent: bool)
    requires Inv(s)
    ensures Inv(RollbackRequest(s, seen, previousExists, sent))
  {
    var s' := RollbackRequest(s, seen, previousExists, sent);
    CasFacts(s.row, seen, RollingBack);
    TokensAppend(s.queue, Sent(RollbackMsg(ROLLBACK_RETRIES), sent));
  }

  predicate SameButTaskStatus(sh: Shard, sh': Shard) {
    && sh'.status == sh.status && sh'.domains == sh.domains
    && sh'.success == sh.success && sh'.failure == sh.failure
    && |sh'.tasks| == |sh.tasks|
  }

  lemma OrderIgnoresTaskStatus(s: State, s': State)
    requires ShardsInOrder(s) && s' == s.(shards := s'.shards) && |s'.shards| == |s.shards|
    requires forall j :: 0 <= j < |s.shards| ==> SameButTaskStatus(s.shards[j], s'.shards[j])
    ensures ShardsInOrder(s')
  {
    assert forall j :: 0 <= j < |s.settlements| ==> SettledAs(s.shards[j], s.settlements[j], j + 1);
  }

  lemma FitIgnoresTaskStatus(s: State, s': State, m: Message)
    requires TokenFits(s, m) && s' == s.(shards := s'.shards) && |s'.shards| == |s.shards|
    requires forall j :: 0 <= j < |s.shards| ==> SameButTaskStatus(s.shards[j], s'.shards[j])
    ensures TokenFits(s', m)
  {
  }

  lemma ReportIs(s: State, shard: nat, task: nat, st: TaskStatus)
    ensures var s' := Report(s, shard, task, st);
            && s' == s.(shards := s'.shards, rollbackTasks := s'.rollbackTasks) && |s'.shards| == |s.shards|
            && (shard > 0 ==> s'.rollbackTasks == s.rollbackTasks) && (shard == 0 ==> s'.shards == s.shards)
            && |s'.rollbackTasks| == |s.rollbackTasks|
            && (forall j :: 0 <= j < |s.shards| ==> SameButTaskStatus(s.shards[j], s'.shards[j]))
  {
  }

  lemma {:induction false} SameRows(a: seq<Shard>, b: seq<Shard>)
    requires |a| == |b| && forall j :: 0 <= j < |a| ==> a[j].domains == b[j].domains
    ensures DomainRows(a) == DomainRows(b)
  {
    if a != [] {
      assert forall j :: 0 <= j < |a| - 1 ==> a[1..][j] == a[j + 1] && b[1..][j] == b[j + 1];
      SameRows(a[1..], b[1..]);
    }
  }

  lemma ReportKeepsOrder(s: State, shard: nat, task: nat, st: TaskStatus)
    requires ForwardPhase(s)
    ensures ForwardPhase(Report(s, shard, task, st))
  {
    var s' := Report(s, shard, task, st);
    ReportIs(s, shard, task, st);
    assert s.rollbackTasks == [] && s'.rollbackTasks == [];
    SameRows(s.shards, s'.shards);
    OrderIgnoresTaskStatus(s, s');
    if s.queue != [] {
      FitIgnoresTaskStatus(s, s', s.queue[0]);
    }
  }

  lemma ReportKeepsInv(s: State, shard: nat, task: nat, st: TaskStatus)
    requires Inv(s)
    ensures Inv(Report(s, shard, task, st))
  {
    if !RollbackStarted(s.row) {
      ReportKeepsOrder(s, shard, task, st);
    }
  }

  // ── Steps and runs ─────────────────────────────────────────────────────────

  predicate Delivery(e: Event) {
    !(e.EPause? || e.EResume? || e.ECancel? || e.ERollback? || e.EReport?)
  }

  /** What delivering a message adds to the queue. */
  function Added(s: State, e: Event): seq<Message>
    requires Enabled(s, e) && Delivery(e)
  {
    var m := s.queue[e.at];
    match e
    case EPlanStart(_, readOk) => AddedByPlanStart(s, m, readOk)
    case EPlanFinish(_, plan) => if plan.Planned? then [BuildMsg(BUILD_RETRIES)] else Retry(PlanMsg(m.left))
    case EBuild(_, build) => AddedByBuild(s, m, build)
    case EDispatchStart(_, readOk) => AddedByStart(s, m, readOk)
    case EDispatchFinish(_, dispatch) => AddedByDispatch(m, dispatch)
    case EFinalizeCheck(_, readOk, sent) => AddedByCheck(s, m, readOk, sent)
    case EFinalizeSettle(_, currentRead, nextRead, sent) => AddedBySettle(s, m, currentRead, nextRead, sent)
    case ERollbackExec(_, rollback) => AddedByRollback(s, m, rollback)
    case ELost(_) => []
  }

  lemma DeliveryAdds(s: State, e: Event)
    requires Enabled(s, e) && Delivery(e)
    requires e.EDispatchFinish? ==> s.queue[e.at].artifactRead.Some?
    requires e.EFinalizeSettle? ==> NamesItsShard(s.queue[e.at])
    ensures Apply(s, e).queue == Take(s.queue, e.at) + Added(s, e)
  {
    if e.EDispatchFinish? {
      DispatchFinishIs(s, e.at, e.dispatch);
    } else if e.EFinalizeSettle? {
      SettleAdds(s, e.at, e.currentRead, e.nextRead, e.sent);
    }
  }

  /** A delivery adds at most one message, and a forward one only in exchange for a forward one. */
  lemma AddedIsSmall(s: State, e: Event)
    requires Enabled(s, e) && Delivery(e)
    ensures |Added(s, e)| <= 1
    ensures Added(s, e) != [] && Forward(Added(s, e)[0]) ==> Forward(s.queue[e.at])
  {
  }

  lemma StepKeepsInv(s: State, e: Event)
    requires Inv(s) && Enabled(s, e)
    ensures Inv(Apply(s, e))
  {
    match e
    case EPlanStart(at, readOk) => PlanStartKeepsInv(s, at, readOk);
    case EPlanFinish(at, plan) => PlanFinishKeepsInv(s, at, plan);
    case EBuild(at, build) => BuildKeepsInv(s, at, build);
    case EDispatchStart(at, readOk) => DispatchStartKeepsInv(s, at, readOk);
    case EDispatchFinish(at, dispatch) => DispatchFinishKeepsInv(s, at, dispatch);
    case EFinalizeCheck(at, readOk, sent) => FinalizeCheckKeepsInv(s, at, readOk, sent);
    case EFinalizeSettle(at, currentRead, nextRead, sent) => FinalizeSettleKeepsInv(s, at, currentRead, nextRead, sent);
    case ERollbackExec(at, rollback) => RollbackExecKeepsInv(s, at, rollback);
    case ELost(at) => LostKeepsInv(s, at);
    case EPause => OperatorKeepsInv(s, Executing, Paused);
    case EResume => OperatorKeepsInv(s, Paused, Executing);
    case ECancel(seen) => OperatorKeepsInv(s, seen, Cancelled);
    case ERollback(seen, previousExists, sent) => RollbackRequestKeepsInv(s, seen, previousExists, sent);
    case EReport(shard, task, status) => ReportKeepsInv(s, shard, task, status);
  }

  lemma {:induction false} RunKeepsInv(s: State, events: seq<Event>)
    requires Inv(s) && IsRun(s, events)
    ensures Inv(Exec(s, events))
    decreases |events|
  {
    if events != [] {
      StepKeepsInv(s, events[0]);
      RunKeepsInv(Apply(s, events[0]), events[1..]);
    }
  }
}
