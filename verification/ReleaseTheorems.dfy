/** The main results about whole runs of the release protocol. */
module ReleaseTheorems {
  import opened ReleaseStates
  import opened ReleaseProtocol
  import opened ReleaseInvariant
  import opened ReleaseRuns
  import opened ReleasePolls

  // ── Order of the shards ────────────────────────────────────────────────────

  /** A succeeded prefix, at most one shard in flight or failed, then only pending shards. */
  ghost predicate PrefixShape(shards: seq<Shard>) {
    exists p :: 0 <= p <= |shards| && SplitAt(shards, p)
  }

  predicate SplitAt(shards: seq<Shard>, p: nat)
    requires p <= |shards|
  {
    && (forall j :: 0 <= j < p ==> shards[j].status == ShardSucceeded)
    && (forall j :: p < j < |shards| ==> shards[j].status == ShardPending)
  }

  lemma InOrderIsPrefixShape(s: State)
    requires ShardsInOrder(s)
    ensures PrefixShape(s.shards)
  {
    var n := |s.settlements|;
    var p := if MayContinue(s) then n else n - 1;
    assert forall j :: 0 <= j < n ==> SettledAs(s.shards[j], s.settlements[j], j + 1);
    assert forall j :: n < j < |s.shards| ==> Untouched(s.shards[j]);
    assert SplitAt(s.shards, p);
  }

  /** In every run, until a rollback starts, the shards are processed strictly in index order. */
  lemma ShardsAreProcessedInOrder(events: seq<Event>)
    requires IsRun(CREATED, events)
    ensures var s := Exec(CREATED, events);
            !RollbackStarted(s.row) ==> PrefixShape(s.shards) && |s.queue| <= 1
  {
    CreatedIsFine();
    RunKeepsInv(CREATED, events);
    var s := Exec(CREATED, events);
    if !RollbackStarted(s.row) {
      InOrderIsPrefixShape(s);
    }
  }

  // ── What success means ─────────────────────────────────────────────────────

  lemma SucceededIsQuiet(s: State)
    requires Inv(s) && SuccessIsTotal(s) && s.row.status == Status.Succeeded
    ensures !RollbackStarted(s.row)
    ensures forall i :: 0 <= i < |s.queue| ==> s.queue[i].PlanMsg?
  {
    if RollbackStarted(s.row) {
      RollbackStartedIsAfterFailure(s.row);
    }
  }

  lemma OnlySettlementsSucceed(s: State, e: Event)
    requires Enabled(s, e) && !e.EFinalizeSettle? && s.row.status != Status.Succeeded
    ensures Apply(s, e).row.status != Status.Succeeded
  {
  }

  /** A succeeded release is frozen except for late agent reports. */
  lemma SucceededStays(s: State, e: Event)
    requires Inv(s) && SuccessIsTotal(s) && Enabled(s, e) && s.row.status == Status.Succeeded
    ensures var s' := Apply(s, e);
            s'.row == s.row && s'.settlements == s.settlements && |s'.shards| == |s.shards|
  {
    SucceededIsQuiet(s);
  }

  lemma OnlyExecutingSucceeds(s: State, e: Event)
    requires Enabled(s, e) && e.EFinalizeSettle? && s.row.status !in {Executing, Status.Succeeded}
    ensures Apply(s, e).row.status != Status.Succeeded
  {
  }

  lemma AfterSettleIsTotal(s: State, m: Message, sent: bool)
    requires ShardsInOrder(s) && m.SettleBody? && TokenFits(s, m) && s.row.status != Status.Succeeded
    ensures SuccessIsTotal(AfterSettle(s, m, true, sent))
  {
    SettledInOrder(s, m);
  }

  lemma SettlementSuccessIsTotal(s: State, e: Event)
    requires Inv(s) && Enabled(s, e) && e.EFinalizeSettle? && e.nextRead && s.row.status != Status.Succeeded
    ensures SuccessIsTotal(Apply(s, e))
  {
    if RollbackStarted(s.row) {
      RollbackStartedIsAfterFailure(s.row);
      OnlyExecutingSucceeds(s, e);
    } else {
      var m := s.queue[e.at];
      assert s.queue == [m] && TokenFits(s, m);
      SettleShardIs(s, m, e.currentRead, true, e.sent);
      AfterSettleIsTotal(s, m, e.sent);
    }
  }

  lemma SuccessStepIsTotal(s: State, e: Event)
    requires Inv(s) && SuccessIsTotal(s) && Enabled(s, e)
    requires e.EFinalizeSettle? ==> e.nextRead
    ensures SuccessIsTotal(Apply(s, e))
  {
    if s.row.status == Status.Succeeded {
      SucceededStays(s, e);
    } else if e.EFinalizeSettle? {
      SettlementSuccessIsTotal(s, e);
    } else {
      OnlySettlementsSucceed(s, e);
    }
  }

  lemma {:induction false} RunSuccessIsTotal(s: State, events: seq<Event>)
    requires Inv(s) && SuccessIsTotal(s) && IsRun(s, events) && ReadsSucceed(events)
    ensures SuccessIsTotal(Exec(s, events))
    decreases |events|
  {
    if events != [] {
      assert events[0] in events;
      SuccessStepIsTotal(s, events[0]);
      StepKeepsInv(s, events[0]);
      assert ReadsSucceed(events[1..]);
      RunSuccessIsTotal(Apply(s, events[0]), events[1..]);
    }
  }

  /** A succeeded state whose success is total. */
  lemma TotalSuccess(s: State)
    requires Inv(s) && SuccessIsTotal(s) && s.row.status == Status.Succeeded
    ensures s.shards != [] && |s.settlements| == |s.shards|
    ensures forall j :: 0 <= j < |s.shards| ==>
              s.shards[j].status == ShardSucceeded && s.settlements[j].shard == j + 1 && Clean(s.settlements[j])
  {
    SucceededIsQuiet(s);
    forall j | 0 <= j < |s.shards|
      ensures s.shards[j].status == ShardSucceeded && s.settlements[j].shard == j + 1 && Clean(s.settlements[j])
    {
      assert SettledAs(s.shards[j], s.settlements[j], j + 1);
    }
  }

  /** When the next-shard reads succeed, a succeeded release has every shard succeeded, and each
      shard was settled exactly once, in order, with no failed, timed-out or unfinished task. */
  lemma SuccessMeansAllShards(events: seq<Event>)
    requires IsRun(CREATED, events) && ReadsSucceed(events)
    ensures var s := Exec(CREATED, events);
            s.row.status == Status.Succeeded ==>
              && s.shards != [] && |s.settlements| == |s.shards|
              && forall j :: 0 <= j < |s.shards| ==>
                   && s.shards[j].status == ShardSucceeded
                   && s.settlements[j].shard == j + 1
                   && Clean(s.settlements[j])
  {
    CreatedIsFine();
    RunKeepsInv(CREATED, events);
    RunSuccessIsTotal(CREATED, events);
    if Exec(CREATED, events).row.status == Status.Succeeded {
      TotalSuccess(Exec(CREATED, events));
    }
  }

  lemma AfterSettleSucceedsExactlyWhenRead(s: State, m: Message, nextRead: bool, sent: bool)
    requires ShardsInOrder(s) && m.SettleBody? && TokenFits(s, m) && s.row.status == Executing
    ensures var s' := AfterSettle(s, m, nextRead, sent);
            s'.row.status == Status.Succeeded ==>
              ((forall j :: 0 <= j < |s'.shards| ==> s'.shards[j].status == ShardSucceeded)
               <==> nextRead || m.shard == |s.shards|)
  {
    SettledInOrder(s, m);
    var s1 := Settled(s, m);
    assert forall j :: 0 <= j < m.shard ==> SettledAs(s1.shards[j], s1.settlements[j], j + 1);
    if m.shard < |s.shards| {
      assert s1.shards[m.shard].status != ShardSucceeded;
    }
  }

  /** Exactly when declaring success is right: a settlement that ends the release leaves every shard
      succeeded if and only if the next-shard read worked or the settled shard was the last one. */
  lemma SuccessIsTotalExactlyWhenRead(s: State, at: nat, currentRead: bool, nextRead: bool, sent: bool)
    requires Inv(s) && at < |s.queue| && s.queue[at].SettleBody? && s.row.status == Executing
    ensures var s' := FinalizeSettle(s, at, currentRead, nextRead, sent);
            s'.row.status == Status.Succeeded ==>
              ((forall j :: 0 <= j < |s'.shards| ==> s'.shards[j].status == ShardSucceeded)
               <==> nextRead || s.queue[at].shard == |s.shards|)
  {
    if RollbackStarted(s.row) {
      RollbackStartedIsAfterFailure(s.row);
    } else {
      var m := s.queue[at];
      assert s.queue == [m] && TokenFits(s, m);
      SettleShardIs(s, m, currentRead, nextRead, sent);
      AfterSettleSucceedsExactlyWhenRead(s, m, nextRead, sent);
    }
  }

  // ── Counters ───────────────────────────────────────────────────────────────

  function SuccessSum(shards: seq<Shard>): nat {
    if shards == [] then 0 else SuccessSum(shards[..|shards| - 1]) + shards[|shards| - 1].success
  }

  function FailureSum(shards: seq<Shard>): nat {
    if shards == [] then 0 else FailureSum(shards[..|shards| - 1]) + shards[|shards| - 1].failure
  }

  function TaskSum(shards: seq<Shard>): nat {
    if shards == [] then 0 else TaskSum(shards[..|shards| - 1]) + |shards[|shards| - 1].tasks|
  }

  /** The parts of ShardsInOrder the counters depend on, closed under dropping the last shard. */
  predicate Tallied(shards: seq<Shard>, ses: seq<Settlement>) {
    && |ses| <= |shards|
    && (forall j :: 0 <= j < |ses| ==>
          && shards[j].success == ses[j].stats.succeeded
          && shards[j].failure == ses[j].stats.failed + ses[j].stats.timeout)
    && (forall j :: |ses| <= j < |shards| ==> shards[j].success == 0 && shards[j].failure == 0)
  }

  lemma {:induction false} RowsSnoc(shards: seq<Shard>, sh: Shard)
    ensures DomainRows(shards + [sh]) == DomainRows(shards) + sh.domains
  {
    if shards == [] {
      assert shards + [sh] == [sh];
    } else {
      assert (shards + [sh])[1..] == shards[1..] + [sh];
      RowsSnoc(shards[1..], sh);
    }
  }

  lemma {:induction false} SumsAgree(shards: seq<Shard>, ses: seq<Settlement>)
    requires Tallied(shards, ses)
    ensures SuccessSum(shards) == SettledSuccess(ses)
    ensures FailureSum(shards) == SettledFailure(ses)
    decreases |shards|
  {
    if shards != [] {
      var n := |shards| - 1;
      SumsAgree(shards[..n], if |ses| == |shards| then ses[..n] else ses);
    }
  }

  lemma {:induction false} SumsAreBounded(shards: seq<Shard>)
    requires forall j :: 0 <= j < |shards| ==> shards[j].success + shards[j].failure <= |shards[j].tasks| <= shards[j].domains
    ensures SuccessSum(shards) + FailureSum(shards) <= TaskSum(shards) <= DomainRows(shards)
    decreases |shards|
  {
    if shards != [] {
      var n := |shards| - 1;
      SumsAreBounded(shards[..n]);
      assert shards == shards[..n] + [shards[n]];
      RowsSnoc(shards[..n], shards[n]);
    }
  }

  /** Until a rollback starts, the release counters are exactly the sums over its shards and over
      the settlements, of which each shard has at most one; they never exceed the agent tasks
      created, nor those the planned domains. */
  lemma CountersAreConserved(events: seq<Event>)
    requires IsRun(CREATED, events)
    ensures var s := Exec(CREATED, events);
            !RollbackStarted(s.row) ==>
              && s.success == SuccessSum(s.shards) == SettledSuccess(s.settlements)
              && s.failure == FailureSum(s.shards) == SettledFailure(s.settlements)
              && (forall i :: 0 <= i < |s.settlements| ==> s.settlements[i].shard == i + 1)
              && s.success + s.failure <= TaskSum(s.shards) <= DomainRows(s.shards)
              && (s.totalDomains.Some? ==> s.totalDomains.value == DomainRows(s.shards))
  {
    CreatedIsFine();
    RunKeepsInv(CREATED, events);
    var s := Exec(CREATED, events);
    if !RollbackStarted(s.row) {
      OrderIsTallied(s);
      SumsAgree(s.shards, s.settlements);
      SumsAreBounded(s.shards);
    }
  }

  lemma OrderIsTallied(s: State)
    requires ShardsInOrder(s)
    ensures Tallied(s.shards, s.settlements)
    ensures forall i :: 0 <= i < |s.settlements| ==> s.settlements[i].shard == i + 1
    ensures forall j :: 0 <= j < |s.shards| ==> s.shards[j].success + s.shards[j].failure <= |s.shards[j].tasks| <= s.shards[j].domains
  {
    assert forall j :: 0 <= j < |s.settlements| ==> SettledAs(s.shards[j], s.settlements[j], j + 1);
    assert forall j :: |s.settlements| < j < |s.shards| ==> Untouched(s.shards[j]);
  }

  // ── Artifact, legacy path, audit trail ─────────────────────────────────────

  /** Wherever dispatching can happen the artifact is there: the missing-artifact error of
      DispatchShard is never taken. */
  lemma ArtifactIsNeverMissing(events: seq<Event>)
    requires IsRun(CREATED, events)
    ensures var s := Exec(CREATED, events);
            && (s.row.status in {Ready, Executing, Paused, Status.Succeeded} ==> s.artifact.Some?)
            && (forall m :: m in s.queue && m.DispatchMsg? ==> s.artifact.Some?)
            && (forall m :: m in s.queue && m.DispatchBody? ==> m.artifactRead.Some?)
  {
    CreatedIsFine();
    RunKeepsInv(CREATED, events);
  }

  /** Finalize without a shard id happens only in rollbacks, so its legacy branch is dead. */
  lemma LegacyFinalizeIsUnreachable(events: seq<Event>)
    requires IsRun(CREATED, events)
    ensures var s := Exec(CREATED, events);
            forall m :: m in s.queue && (m.FinalizeMsg? || m.SettleBody?) && m.shard == 0 ==> m.isRollback
  {
    CreatedIsFine();
    RunKeepsInv(CREATED, events);
    var s := Exec(CREATED, events);
    assert forall m :: m in s.queue ==> NamesItsShard(m);
  }

  /** The audit trail of every run is a connected legal path that never leaves a terminal state
      and never executes or succeeds after a failure. */
  lemma RunHistoryIsLegal(events: seq<Event>)
    requires IsRun(CREATED, events)
    ensures ConnectedPath(Exec(CREATED, events).row) && NoReturn(Exec(CREATED, events).row)
  {
    CreatedIsFine();
    RunKeepsInv(CREATED, events);
    ValidRowIsConnected(Exec(CREATED, events).row);
    ConnectedPathNeverReturns(Exec(CREATED, events).row);
  }

  // ── What the settled tasks were doing ──────────────────────────────────────

  /** The shards, by index and task count, whose tasks have all succeeded or were cancelled. */
  function DoneNow(s: State): set<(nat, nat)> {
    set j: nat | j < |s.shards| && AllDone(s.shards[j].tasks) :: (j, |s.shards[j].tasks|)
  }

  /** Shards settled clean, or about to be, are on the log of shards that were once done. */
  predicate CleanIsLogged(s: State, log: set<(nat, nat)>) {
    && |s.settlements| <= |s.shards|
    && (forall j :: 0 <= j < |s.settlements| && Clean(s.settlements[j]) ==> (j, |s.shards[j].tasks|) in log)
    && (s.queue != [] && s.queue[0].SettleBody? && CleanStats(s.queue[0].stats) && 1 <= s.queue[0].shard <= |s.shards|
        ==> (s.queue[0].shard - 1, |s.shards[s.queue[0].shard - 1].tasks|) in log)
  }

  /** The shard a poll names, and what the poll reads of it. */
  lemma PollReads(s: State)
    requires ForwardPhase(s) && |s.queue| == 1 && s.queue[0].FinalizeMsg?
    ensures var m := s.queue[0];
            && 1 <= m.shard <= |s.shards| && !m.isRollback
            && StatsRead(s, m) == StatsOf(s.shards[m.shard - 1].tasks)
  {
    var m := s.queue[0];
    assert TokenFits(s, m) && s.rollbackTasks == [];
    assert s.shards[m.shard - 1].tasks + [] == s.shards[m.shard - 1].tasks;
  }

  lemma LoggedAfterAdding(s: State, s': State, log: set<(nat, nat)>)
    requires CleanIsLogged(s, log) && s' == s.(queue := s'.queue) && |s'.queue| <= 1
    requires s'.queue != [] && s'.queue[0].SettleBody? && CleanStats(s'.queue[0].stats) ==>
               var j := s'.queue[0].shard - 1; 0 <= j < |s.shards| ==> AllDone(s.shards[j].tasks)
    ensures CleanIsLogged(s', log + DoneNow(s))
  {
  }

  lemma LoggedAfterReading(s: State, s': State, m: Message, readOk: bool, sent: bool, log: set<(nat, nat)>)
    requires CleanIsLogged(s, log) && m.FinalizeMsg? && 1 <= m.shard <= |s.shards|
    requires StatsRead(s, m) == StatsOf(s.shards[m.shard - 1].tasks)
    requires s' == s.(queue := AddedByCheck(s, m, readOk, sent))
    ensures CleanIsLogged(s', log + DoneNow(s))
  {
    CleanExactlyWhenDone(s.shards[m.shard - 1].tasks);
    LoggedAfterAdding(s, s', log);
  }

  lemma LoggedAfterCheck(s: State, e: Event, log: set<(nat, nat)>)
    requires ForwardPhase(s) && CleanIsLogged(s, log) && Enabled(s, e) && e.EFinalizeCheck?
    ensures CleanIsLogged(Apply(s, e), log + DoneNow(s))
  {
    var m := s.queue[e.at];
    PollReads(s);
    FinalizeCheckIs(s, e.at, e.readOk, e.sent);
    OnlyTheToken(s, e.at, AddedByCheck(s, m, e.readOk, e.sent));
    LoggedAfterReading(s, FinalizeCheck(s, e.at, e.readOk, e.sent), m, e.readOk, e.sent, log);
  }

  lemma LoggedAfterSettle(s: State, m: Message, nextRead: bool, sent: bool, log: set<(nat, nat)>)
    requires CleanIsLogged(s, log) && s.queue == [m] && m.SettleBody?
    requires m.shard == |s.settlements| + 1 <= |s.shards|
    ensures CleanIsLogged(AfterSettle(s, m, nextRead, sent), log)
  {
    var s', n := AfterSettle(s, m, nextRead, sent), |s.settlements|;
    assert s'.settlements == s.settlements + [Settlement(m.shard, m.stats, m.retry)];
    assert s'.shards == Settled(s, m).shards;
    assert s'.shards[n].tasks == s.shards[n].tasks;
  }

  lemma LoggedAfterDispatch(s: State, e: Event, log: set<(nat, nat)>)
    requires ForwardPhase(s) && CleanIsLogged(s, log) && Enabled(s, e) && e.EDispatchFinish?
    requires s.queue[e.at].artifactRead.Some?
    ensures CleanIsLogged(Apply(s, e), log)
  {
    var m := s.queue[e.at];
    assert TokenFits(s, m);
    DispatchFinishIs(s, e.at, e.dispatch);
    OnlyTheToken(s, e.at, AddedByDispatch(m, e.dispatch));
    LoggedAfterTasks(s, DispatchFinish(s, e.at, e.dispatch), log);
  }

  /** New tasks for the shard in flight. */
  lemma LoggedAfterTasks(s: State, s': State, log: set<(nat, nat)>)
    requires CleanIsLogged(s, log) && s'.settlements == s.settlements && |s'.shards| == |s.shards|
    requires forall j :: 0 <= j < |s.settlements| ==> s'.shards[j] == s.shards[j]
    requires s'.queue == [] || !s'.queue[0].SettleBody?
    ensures CleanIsLogged(s', log)
  {
  }

  /** Steps that keep the settled shards' task lists and leave no new settlement in progress. */
  lemma LoggedAfterOthers(s: State, s': State, log: set<(nat, nat)>)
    requires CleanIsLogged(s, log) && s'.settlements == s.settlements && |s.shards| <= |s'.shards|
    requires forall j :: 0 <= j < |s.shards| ==> |s'.shards[j].tasks| == |s.shards[j].tasks|
    requires (s'.queue != [] && s.queue != [] && s'.queue[0] == s.queue[0] && |s'.shards| == |s.shards|)
             || s'.queue == [] || !s'.queue[0].SettleBody?
    ensures CleanIsLogged(s', log)
  {
  }

  lemma OtherDeliveries(s: State, e: Event)
    requires Enabled(s, e) && |s.queue| <= 1
    requires e.EPlanStart? || e.EPlanFinish? || e.EBuild? || e.EDispatchStart? || e.ELost?
    ensures var s' := Apply(s, e);
            && s'.settlements == s.settlements && s.shards <= s'.shards
            && (s'.queue == [] || !s'.queue[0].SettleBody?)
  {
    DeliveryAdds(s, e);
    OnlyTheToken(s, e.at, Added(s, e));
  }

  lemma OperatorsKeepTaskLists(s: State, e: Event)
    requires Enabled(s, e) && (Bystander(e) || e.ERollback?)
    ensures var s' := Apply(s, e);
            && s'.settlements == s.settlements && |s'.shards| == |s.shards| && s.queue <= s'.queue
            && forall j :: 0 <= j < |s.shards| ==> |s'.shards[j].tasks| == |s.shards[j].tasks|
  {
  }

  lemma LogMayGrow(s: State, log: set<(nat, nat)>, more: set<(nat, nat)>)
    requires CleanIsLogged(s, log)
    ensures CleanIsLogged(s, log + more)
  {
  }

  lemma LoggedSettlement(s: State, e: Event, log: set<(nat, nat)>)
    requires ForwardPhase(s) && Enabled(s, e) && e.EFinalizeSettle? && CleanIsLogged(s, log)
    ensures CleanIsLogged(Apply(s, e), log)
  {
    var m := s.queue[e.at];
    assert s.queue == [m] && TokenFits(s, m);
    SettleShardIs(s, m, e.currentRead, e.nextRead, e.sent);
    LoggedAfterSettle(s, m, e.nextRead, e.sent, log);
  }

  lemma LoggedQuietStep(s: State, e: Event, log: set<(nat, nat)>)
    requires |s.queue| <= 1 && Enabled(s, e) && CleanIsLogged(s, log)
    requires !(e.EFinalizeCheck? || e.EFinalizeSettle? || e.EDispatchFinish? || e.ERollbackExec?)
    ensures CleanIsLogged(Apply(s, e), log)
  {
    if Delivery(e) {
      OtherDeliveries(s, e);
    } else {
      OperatorsKeepTaskLists(s, e);
    }
    LoggedAfterOthers(s, Apply(s, e), log);
  }

  lemma LoggedStep(s: State, e: Event, log: set<(nat, nat)>)
    requires Inv(s) && Enabled(s, e) && !RollbackStarted(s.row) && CleanIsLogged(s, log)
    ensures CleanIsLogged(Apply(s, e), log + DoneNow(s))
  {
    if e.EFinalizeCheck? {
      LoggedAfterCheck(s, e, log);
    } else {
      if e.EFinalizeSettle? {
        LoggedSettlement(s, e, log);
      } else if e.EDispatchFinish? {
        assert s.queue[e.at] in s.queue;
        LoggedAfterDispatch(s, e, log);
      } else if e.ERollbackExec? {
        RollbackExecKeepsInv(s, e.at, e.rollback);
      } else {
        LoggedQuietStep(s, e, log);
      }
      LogMayGrow(Apply(s, e), log, DoneNow(s));
    }
  }

  /** The shards that were done at some point of a run before its end. */
  ghost function DoneLog(events: seq<Event>): set<(nat, nat)>
    requires IsRun(CREATED, events)
  {
    if events == [] then {}
    else
      RunUnsnoc(CREATED, events);
      var n := |events| - 1;
      DoneLog(events[..n]) + DoneNow(Exec(CREATED, events[..n]))
  }

  lemma {:induction false} RunIsLogged(events: seq<Event>)
    requires IsRun(CREATED, events)
    ensures var s := Exec(CREATED, events);
            Inv(s) && (RollbackStarted(s.row) || CleanIsLogged(s, DoneLog(events)))
  {
    if events == [] {
      CreatedIsFine();
    } else {
      RunUnsnoc(CREATED, events);
      var n := |events| - 1;
      RunIsLogged(events[..n]);
      var s := Exec(CREATED, events[..n]);
      StepKeepsInv(s, events[n]);
      if RollbackStarted(s.row) {
        RollbackStartedStays(s, events[n]);
      } else {
        LoggedStep(s, events[n], DoneLog(events[..n]));
      }
    }
  }

  /** At point `n` of the run the shard had `size` tasks, each succeeded or cancelled. */
  ghost predicate DoneAt(events: seq<Event>, n: nat, j: nat, size: nat)
    requires IsRun(CREATED, events) && n <= |events|
  {
    var s := StateAt(events, n);
    j < |s.shards| && |s.shards[j].tasks| == size && AllDone(s.shards[j].tasks)
  }

  lemma {:induction false} LoggedMeansDoneOnce(events: seq<Event>, j: nat, size: nat) returns (n: nat)
    requires IsRun(CREATED, events) && (j, size) in DoneLog(events)
    ensures n < |events| && DoneAt(events, n, j, size)
  {
    RunUnsnoc(CREATED, events);
    var front := events[..|events| - 1];
    if (j, size) in DoneLog(front) {
      n := LoggedMeansDoneOnce(front, j, size);
      assert front[..n] == events[..n];
    } else {
      n := |events| - 1;
    }
  }

  /** The shard was done at some point, and no report on its task `k` came after it. */
  lemma DoneAndNotReported(events: seq<Event>, n: nat, j: nat, k: nat, size: nat)
    requires IsRun(CREATED, events) && n <= |events| && DoneAt(events, n, j, size) && k < size
    requires !ReportedSince(events, n, j, k)
    ensures HasTask(Exec(CREATED, events), j, k)
    ensures Exec(CREATED, events).shards[j].tasks[k].status in {TaskSucceeded, TaskCancelled}
  {
    assert events[..|events|] == events;
    ChangedMeansReported(events, n, |events|, j, k);
  }

  /** Every shard of a succeeded release was, when it was polled for its settlement, done: each of its tasks had
      succeeded or was cancelled.  A task that is in another state now was reported on after that. */
  lemma SuccessMeansAllTasksDone(events: seq<Event>, j: nat) returns (n: nat)
    requires IsRun(CREATED, events) && ReadsSucceed(events)
    requires Exec(CREATED, events).row.status == Status.Succeeded && j < |Exec(CREATED, events).shards|
    ensures n < |events| && DoneAt(events, n, j, |Exec(CREATED, events).shards[j].tasks|)
    ensures forall k: nat :: k < |Exec(CREATED, events).shards[j].tasks| && !ReportedSince(events, n, j, k) ==>
              Exec(CREATED, events).shards[j].tasks[k].status in {TaskSucceeded, TaskCancelled}
  {
    var s := Exec(CREATED, events);
    RunIsLogged(events);
    SuccessMeansAllShards(events);
    if RollbackStarted(s.row) {
      RollbackStartedIsAfterFailure(s.row);
    }
    var size := |s.shards[j].tasks|;
    assert Clean(s.settlements[j]);
    n := LoggedMeansDoneOnce(events, j, size);
    forall k: nat | k < size && !ReportedSince(events, n, j, k)
      ensures s.shards[j].tasks[k].status in {TaskSucceeded, TaskCancelled}
    {
      DoneAndNotReported(events, n, j, k, size);
    }
  }
}
