/**
 Worker activity ends: every delivery drops a lexicographic measure, the deliveries of
 a run are bounded by its shards and rollback requests, polls number at most 361 per
 shard, and a release that nothing disturbs is decided when its queue is empty.
 */
module ReleaseTermination {
  import opened ReleaseStates
  import opened ReleaseProtocol
  import opened ReleaseInvariant
  import opened ReleaseRuns

  const POLLS_PER_SHARD: nat := MAX_FINALIZE_RETRIES + 1

  /** More than any one shard's deliveries can consume. */
  const SHARD_WEIGHT: nat := 408

  function Monus(a: nat, b: nat): nat {
    if a >= b then a - b else 0
  }

  // ── Measures ───────────────────────────────────────────────────────────────

  /** Planning comes first, before the number of shards is known. */
  function PlanStage(m: Message): nat {
    match m
    case PlanMsg(left) => 2 * left + 2
    case PlanBody(left) => 2 * left + 1
    case _ => 0
  }

  /** How many more deliveries a message can cause in a release of `k` shards. */
  function Weight(m: Message, k: nat): nat {
    match m
    case PlanMsg(_) => 0
    case PlanBody(_) => 0
    case BuildMsg(left) => SHARD_WEIGHT * k + left + 1
    case DispatchMsg(shard, left) => SHARD_WEIGHT * Monus(k, shard) + 402 + 2 * left
    case DispatchBody(shard, left, _) => SHARD_WEIGHT * Monus(k, shard) + 401 + 2 * left
    case FinalizeMsg(shard, retry, isRollback) =>
      (if isRollback then 0 else SHARD_WEIGHT * Monus(k, shard)) + 2 + Monus(MAX_FINALIZE_RETRIES, retry)
    case SettleBody(shard, _, isRollback, _) => (if isRollback then 0 else SHARD_WEIGHT * Monus(k, shard)) + 1
    case RollbackMsg(left) => 400 + left
  }

  /** How many more non-rollback Finalize deliveries a message can cause. */
  function PollsLeft(m: Message, k: nat): nat {
    match m
    case BuildMsg(_) => POLLS_PER_SHARD * k
    case DispatchMsg(shard, _) => POLLS_PER_SHARD * Monus(k + 1, shard)
    case DispatchBody(shard, _, _) => POLLS_PER_SHARD * Monus(k + 1, shard)
    case FinalizeMsg(shard, retry, isRollback) =>
      if isRollback then 0 else POLLS_PER_SHARD * Monus(k, shard) + Monus(POLLS_PER_SHARD, retry)
    case SettleBody(shard, _, isRollback, _) => if isRollback then 0 else POLLS_PER_SHARD * Monus(k, shard)
    case _ => 0
  }

  function Stages(q: seq<Message>): nat {
    if q == [] then 0 else PlanStage(q[0]) + Stages(q[1..])
  }

  function Weights(q: seq<Message>, k: nat): nat {
    if q == [] then 0 else Weight(q[0], k) + Weights(q[1..], k)
  }

  function Budget(q: seq<Message>, k: nat): nat {
    if q == [] then 0 else PollsLeft(q[0], k) + Budget(q[1..], k)
  }

  lemma {:induction false} MeasuresAppend(p: seq<Message>, q: seq<Message>, k: nat)
    ensures Stages(p + q) == Stages(p) + Stages(q)
    ensures Weights(p + q, k) == Weights(p, k) + Weights(q, k)
    ensures Budget(p + q, k) == Budget(p, k) + Budget(q, k)
  {
    if p == [] {
      assert p + q == q;
    } else {
      assert (p + q)[1..] == p[1..] + q;
      MeasuresAppend(p[1..], q, k);
    }
  }

  /** Delivering one message in exchange for at most one other. */
  lemma MeasuresTake(q: seq<Message>, at: nat, added: seq<Message>, k: nat)
    requires at < |q| && |added| <= 1
    ensures var q', m := Take(q, at) + added, q[at];
            && Stages(q') == Stages(q) - PlanStage(m) + (if added == [] then 0 else PlanStage(added[0]))
            && Weights(q', k) == Weights(q, k) - Weight(m, k) + (if added == [] then 0 else Weight(added[0], k))
            && Budget(q', k) == Budget(q, k) - PollsLeft(m, k) + (if added == [] then 0 else PollsLeft(added[0], k))
  {
    assert q == q[..at] + ([q[at]] + q[at + 1..]);
    MeasuresAppend(q[..at], [q[at]] + q[at + 1..], k);
    MeasuresAppend([q[at]], q[at + 1..], k);
    MeasuresAppend(q[..at], q[at + 1..], k);
    MeasuresAppend(Take(q, at), added, k);
    assert added != [] ==> added == [added[0]];
    assert [q[at]][1..] == [] && (added != [] ==> [added[0]][1..] == []);
  }

  // ── What the measures rely on ──────────────────────────────────────────────

  /** Shards before the one a forward message names have left the pending state for good. */
  predicate Passed(s: State) {
    forall m, j :: m in s.queue && NamesShard(m) && 0 <= j < |s.shards| && j + 1 < m.shard ==>
      s.shards[j].status != ShardPending
  }

  /** Retry numbers and shard ids are in range. */
  predicate InRange(m: Message, k: nat) {
    (m.FinalizeMsg? ==> m.retry <= MAX_FINALIZE_RETRIES) && (NamesShard(m) ==> m.shard <= k)
  }

  /** The shards that are there stay, and none of them goes back to pending. */
  predicate MovesOn(before: seq<Shard>, after: seq<Shard>) {
    |before| <= |after| && forall j :: 0 <= j < |before| && before[j].status != ShardPending ==> after[j].status != ShardPending
  }

  lemma DispatchMovesOn(s: State, at: nat, outcome: DispatchOutcome)
    requires at < |s.queue| && s.queue[at].DispatchBody?
    ensures MovesOn(s.shards, DispatchFinish(s, at, outcome).shards)
    ensures |DispatchFinish(s, at, outcome).shards| == |s.shards|
  {
    var m := s.queue[at];
    var s1 := SetShardStatus(s, m.shard, ShardDispatching);
    assert MovesOn(s.shards, s1.shards);
    if outcome.Dispatched? {
      var s2 := CreateTasks(s1, m.shard, outcome.agents);
      assert MovesOn(s1.shards, s2.shards);
      assert MovesOn(s2.shards, SetShardStatus(s2, m.shard, ShardRunning).shards);
    }
  }

  lemma SettleMovesOn(s: State, at: nat, currentRead: bool, nextRead: bool, sent: bool)
    requires at < |s.queue| && s.queue[at].SettleBody?
    ensures var s' := FinalizeSettle(s, at, currentRead, nextRead, sent);
            MovesOn(s.shards, s'.shards) && |s'.shards| == |s.shards|
  {
    var m := s.queue[at];
    if m.isRollback || m.shard == 0 {
      assert |SettleWhole(s, at).shards| == |s.shards|;
    } else {
      assert SettleShard(s, at, currentRead, nextRead, sent).shards == Settled(s, m).shards;
    }
  }

  /** No step puts a shard back to pending. */
  lemma StepMovesOn(s: State, e: Event)
    requires Enabled(s, e)
    ensures MovesOn(s.shards, Apply(s, e).shards)
    ensures !e.EPlanFinish? ==> |Apply(s, e).shards| == |s.shards|
  {
    match e
    case EDispatchFinish(at, dispatch) => DispatchMovesOn(s, at, dispatch);
    case EFinalizeSettle(at, currentRead, nextRead, sent) => SettleMovesOn(s, at, currentRead, nextRead, sent);
    case EReport(_, _, _) =>
    case EPlanFinish(_, _) =>
    case _ => assert Apply(s, e).shards == s.shards;
  }

  lemma {:induction false} NextIsAbove(shards: seq<Shard>, after: nat)
    ensures var r := NextPending(shards, after);
            r.Some? ==> after < r.value < |shards| && shards[r.value].status == ShardPending
                        && forall j :: after < j < r.value ==> shards[j].status != ShardPending
    decreases |shards| - after
  {
    if after + 1 < |shards| && shards[after + 1].status != ShardPending {
      NextIsAbove(shards, after + 1);
    }
  }

  /** The next dispatch is for a later shard, and everything before it has been passed. */
  lemma NextDispatchIsLater(s: State, m: Message, currentRead: bool, nextRead: bool, sent: bool)
    requires m.SettleBody? && m.shard > 0
    requires forall j :: 0 <= j < |s.shards| && j + 1 < m.shard ==> s.shards[j].status != ShardPending
    ensures var added := AddedBySettle(s, m, currentRead, nextRead, sent);
            |added| <= 1 && (added != [] ==>
              && added[0].DispatchMsg? && added[0].left == DISPATCH_RETRIES && !m.isRollback
              && m.shard < added[0].shard <= |s.shards|
              && forall j :: m.shard - 1 < j < added[0].shard - 1 ==> s.shards[j].status != ShardPending)
  {
    if 1 <= m.shard <= |s.shards| {
      var shards := s.shards[m.shard - 1 := SettledShard(s.shards[m.shard - 1], m)];
      NextIsAbove(shards, if currentRead then m.shard - 1 else 0);
      assert forall j :: 0 <= j < |shards| && j != m.shard - 1 ==> shards[j] == s.shards[j];
    } else {
      NextIsAbove(s.shards, 0);
    }
  }

  /** What the termination argument needs to know about a state. */
  predicate Winding(s: State) {
    Passed(s) && forall m :: m in s.queue ==> InRange(m, |s.shards|)
  }

  /** The message a delivery adds names a shard in range, and the shards before that one have been passed. */
  predicate Winds(m: Message, shards: seq<Shard>) {
    InRange(m, |shards|) && (NamesShard(m) ==> PassedBefore(shards, m.shard))
  }

  predicate PassedBefore(shards: seq<Shard>, shard: nat) {
    forall j :: 0 <= j < |shards| && j + 1 < shard ==> shards[j].status != ShardPending
  }

  lemma PassedStays(before: seq<Shard>, after: seq<Shard>, shard: nat)
    requires MovesOn(before, after) && PassedBefore(before, shard) && |before| == |after|
    ensures PassedBefore(after, shard)
  {
  }

  lemma SettleWinds(s: State, e: Event)
    requires QueueSound(s) && Winding(s) && Enabled(s, e) && e.EFinalizeSettle? && !s.queue[e.at].isRollback
    ensures Added(s, e) != [] ==> Winds(Added(s, e)[0], Apply(s, e).shards)
  {
    var m := s.queue[e.at];
    assert m in s.queue;
    NextDispatchIsLater(s, m, e.currentRead, e.nextRead, e.sent);
    SettledLeavesPending(s, e);
    StepMovesOn(s, e);
    PassedStays(s.shards, Apply(s, e).shards, m.shard);
  }

  /** Messages about a shard are followed by messages about the same shard. */
  lemma OthersWind(s: State, e: Event, shards: seq<Shard>)
    requires QueueSound(s) && Winding(s) && Enabled(s, e) && Delivery(e)
    requires e.EFinalizeSettle? ==> s.queue[e.at].isRollback
    requires !e.EPlanFinish? ==> MovesOn(s.shards, shards) && |shards| == |s.shards|
    ensures Added(s, e) != [] ==> Winds(Added(s, e)[0], shards)
  {
    var m := s.queue[e.at];
    assert m in s.queue;
    if !e.EPlanFinish? && NamesShard(m) {
      PassedStays(s.shards, shards, m.shard);
    }
  }

  lemma AddedWinds(s: State, e: Event)
    requires QueueSound(s) && Winding(s) && Enabled(s, e) && Delivery(e)
    ensures Added(s, e) != [] ==> Winds(Added(s, e)[0], Apply(s, e).shards)
  {
    if e.EFinalizeSettle? && !s.queue[e.at].isRollback {
      SettleWinds(s, e);
    } else {
      StepMovesOn(s, e);
      OthersWind(s, e, Apply(s, e).shards);
    }
  }

  lemma SameShardCount(s: State, e: Event)
    requires Enabled(s, e) && !e.EPlanFinish?
    ensures |Apply(s, e).shards| == |s.shards|
  {
    StepMovesOn(s, e);
  }

  lemma SettledLeavesPending(s: State, e: Event)
    requires Enabled(s, e) && e.EFinalizeSettle? && !s.queue[e.at].isRollback
    ensures |Apply(s, e).shards| == |s.shards|
    ensures 1 <= s.queue[e.at].shard <= |s.shards| ==> Apply(s, e).shards[s.queue[e.at].shard - 1].status != ShardPending
  {
  }

  /** Bookkeeping for a queue whose messages are old ones or the one just added. */
  lemma WindingFrom(s: State, s': State, added: seq<Message>)
    requires Winding(s) && |added| <= 1 && MovesOn(s.shards, s'.shards)
    requires forall m :: m in s'.queue ==> m in added || (m in s.queue && (NamesShard(m) ==> |s'.shards| == |s.shards|))
    requires added != [] ==> Winds(added[0], s'.shards)
    ensures Winding(s')
  {
  }

  lemma WindingDelivery(s: State, e: Event)
    requires QueueSound(s) && ArtifactPresent(s) && Winding(s) && Enabled(s, e) && Delivery(e)
    ensures Winding(Apply(s, e))
  {
    assert s.queue[e.at] in s.queue;
    StepMovesOn(s, e);
    DeliveryAdds(s, e);
    AddedIsSmall(s, e);
    AddedWinds(s, e);
    if e.EPlanFinish? {
      OthersAreNotForward(s.queue, e.at);
    }
    WindingFrom(s, Apply(s, e), Added(s, e));
  }

  lemma WindingStep(s: State, e: Event)
    requires QueueSound(s) && ArtifactPresent(s) && Winding(s) && Enabled(s, e)
    ensures Winding(Apply(s, e))
  {
    if Delivery(e) {
      WindingDelivery(s, e);
    } else {
      StepMovesOn(s, e);
      var added := if e.ERollback? then Sent(RollbackMsg(ROLLBACK_RETRIES), e.sent) else [];
      WindingFrom(s, Apply(s, e), added);
    }
  }

  // ── Every delivery makes progress ──────────────────────────────────────────

  /** The lexicographic measure (planning stage, weight). */
  predicate Drops(s: State, s': State) {
    || Stages(s'.queue) < Stages(s.queue)
    || (Stages(s'.queue) == Stages(s.queue) && |s'.shards| == |s.shards|
        && Weights(s'.queue, |s'.shards|) < Weights(s.queue, |s.shards|))
  }

  lemma LaterShardIsLighter(shard: nat, next: nat, k: nat)
    requires shard < next <= k
    ensures Weight(DispatchMsg(next, DISPATCH_RETRIES), k) <= SHARD_WEIGHT * Monus(k, shard)
    ensures POLLS_PER_SHARD * Monus(k + 1, next) <= POLLS_PER_SHARD * Monus(k, shard)
  {
    assert k - next + 1 <= k - shard;
  }

  lemma SettleIsLighter(s: State, e: Event)
    requires QueueSound(s) && Winding(s) && Enabled(s, e) && e.EFinalizeSettle?
    ensures var m, added, k := s.queue[e.at], Added(s, e), |s.shards|;
            && (added == [] || PlanStage(added[0]) == 0)
            && Weight(m, k) > (if added == [] then 0 else Weight(added[0], k))
            && PollsLeft(m, k) >= (if added == [] then 0 else PollsLeft(added[0], k))
  {
    var m := s.queue[e.at];
    assert m in s.queue;
    if !m.isRollback {
      NextDispatchIsLater(s, m, e.currentRead, e.nextRead, e.sent);
      if Added(s, e) != [] {
        LaterShardIsLighter(m.shard, Added(s, e)[0].shard, |s.shards|);
      }
    }
  }

  lemma BuildIsLighter(s: State, m: Message, outcome: BuildOutcome)
    requires m.BuildMsg?
    ensures var added, k := AddedByBuild(s, m, outcome), |s.shards|;
            && (added == [] || PlanStage(added[0]) == 0)
            && Weight(m, k) > (if added == [] then 0 else Weight(added[0], k))
  {
    if |s.shards| > 0 {
      LaterShardIsLighter(0, 1, |s.shards|);
    }
  }

  /** One for one, the added message is lighter than the delivered one. */
  lemma AddedIsLighter(s: State, e: Event)
    requires QueueSound(s) && Winding(s) && Enabled(s, e) && Delivery(e)
    ensures var m, added := s.queue[e.at], Added(s, e);
            if e.EPlanStart? || e.EPlanFinish?
            then PlanStage(m) > (if added == [] then 0 else PlanStage(added[0]))
            else (added == [] || PlanStage(added[0]) == 0 <= PlanStage(m))
                 && Weight(m, |s.shards|) + PlanStage(m) > (if added == [] then 0 else Weight(added[0], |s.shards|))
  {
    if e.EFinalizeSettle? {
      SettleIsLighter(s, e);
    } else if e.EBuild? {
      BuildIsLighter(s, s.queue[e.at], e.build);
    } else {
      assert s.queue[e.at] in s.queue;
    }
  }

  /** Each worker delivery drops the measure, so with no operator steps in between worker activity ends. */
  lemma DeliveryDrops(s: State, e: Event)
    requires Inv(s) && Winding(s) && Enabled(s, e) && Delivery(e)
    ensures Drops(s, Apply(s, e))
  {
    assert s.queue[e.at] in s.queue;
    DeliveryAdds(s, e);
    AddedIsSmall(s, e);
    AddedIsLighter(s, e);
    MeasuresTake(s.queue, e.at, Added(s, e), |s.shards|);
    if !e.EPlanFinish? {
      SameShardCount(s, e);
    }
  }

  function Deliveries(events: seq<Event>): nat {
    if events == [] then 0 else (if Delivery(events[0]) then 1 else 0) + Deliveries(events[1..])
  }

  predicate NoRollbackRequests(events: seq<Event>) {
    forall e :: e in events ==> !e.ERollback?
  }

  /** Operator pauses, resumes and cancels, and agent reports, leave the queue alone. */
  lemma OthersKeepQueue(s: State, e: Event)
    requires Enabled(s, e) && !Delivery(e) && !e.ERollback?
    ensures Apply(s, e).queue == s.queue && |Apply(s, e).shards| == |s.shards|
  {
  }

  /** Once planning is over, the deliveries still to come are bounded by the weight of the queue,
      whatever operators (short of a new rollback) and agents do. */
  lemma {:induction false} DeliveriesAreBounded(s: State, events: seq<Event>)
    requires Inv(s) && Winding(s) && Stages(s.queue) == 0
    requires IsRun(s, events) && NoRollbackRequests(events)
    ensures Deliveries(events) <= Weights(s.queue, |s.shards|)
    decreases |events|
  {
    if events != [] {
      var e, s' := events[0], Apply(s, events[0]);
      assert e in events && NoRollbackRequests(events[1..]);
      StepKeepsInv(s, e);
      WindingStep(s, e);
      if Delivery(e) {
        DeliveryDrops(s, e);
      } else {
        OthersKeepQueue(s, e);
      }
      DeliveriesAreBounded(s', events[1..]);
    }
  }

  /** The operator requests that can bring new messages. */
  function Requests(events: seq<Event>): nat {
    if events == [] then 0 else (if events[0].ERollback? then 1 else 0) + Requests(events[1..])
  }

  const ROLLBACK_WEIGHT: nat := 402
  const BUILD_WEIGHT: nat := BUILD_RETRIES + 1
  const PLAN_STAGES: nat := 2 * PLAN_RETRIES + 2

  /** The deliveries a state can still cause in a run that ends with `k` shards. */
  function Potential(s: State, k: nat): nat {
    Stages(s.queue) + Weights(s.queue, |s.shards|) + (if Stages(s.queue) > 0 then SHARD_WEIGHT * k + BUILD_WEIGHT else 0)
  }

  lemma {:induction false} RollbackWeightsIgnoreShards(q: seq<Message>, k: nat, k': nat)
    requires forall i :: 0 <= i < |q| ==> !Forward(q[i])
    ensures Weights(q, k) == Weights(q, k') && Stages(q) == 0
  {
    if q != [] {
      assert forall i :: 0 <= i < |q[1..]| ==> q[1..][i] == q[i + 1];
      RollbackWeightsIgnoreShards(q[1..], k, k');
    }
  }

  lemma PlanningDropsPotential(s: State, e: Event, k: nat)
    requires Inv(s) && Enabled(s, e) && e.EPlanFinish? && |Apply(s, e).shards| <= k
    ensures Potential(Apply(s, e), k) < Potential(s, k)
  {
    var s', rest, added := Apply(s, e), Take(s.queue, e.at), Added(s, e);
    assert s.queue[e.at] in s.queue;
    DeliveryAdds(s, e);
    AddedIsSmall(s, e);
    OthersAreNotForward(s.queue, e.at);
    assert forall i :: 0 <= i < |rest| ==> rest[i] in rest;
    RollbackWeightsIgnoreShards(rest, |s.shards|, |s'.shards|);
    MeasuresTake(s.queue, e.at, [], |s.shards|);
    assert rest + [] == rest;
    MeasuresAppend(rest, added, |s'.shards|);
    assert added != [] ==> added[1..] == [];
    assert SHARD_WEIGHT * |s'.shards| <= SHARD_WEIGHT * k;
  }

  lemma PotentialDrops(s: State, s': State, at: nat, added: seq<Message>, k: nat)
    requires at < |s.queue| && |added| <= 1 && s'.queue == Take(s.queue, at) + added && |s'.shards| == |s.shards|
    requires var m, n := s.queue[at], |s.shards|;
             && PlanStage(m) + Weight(m, n) > (if added == [] then 0 else PlanStage(added[0]) + Weight(added[0], n))
             && PlanStage(m) >= (if added == [] then 0 else PlanStage(added[0]))
    ensures Potential(s', k) < Potential(s, k)
  {
    MeasuresTake(s.queue, at, added, |s.shards|);
  }

  lemma DeliveryDropsPotential(s: State, e: Event, k: nat)
    requires Inv(s) && Winding(s) && Enabled(s, e) && Delivery(e) && |Apply(s, e).shards| <= k
    ensures Potential(Apply(s, e), k) < Potential(s, k)
  {
    if e.EPlanFinish? {
      PlanningDropsPotential(s, e, k);
    } else {
      assert s.queue[e.at] in s.queue;
      DeliveryAdds(s, e);
      AddedIsSmall(s, e);
      AddedIsLighter(s, e);
      SameShardCount(s, e);
      assert e.EPlanStart? && Added(s, e) != [] ==> Weight(Added(s, e)[0], |s.shards|) == 0;
      PotentialDrops(s, Apply(s, e), e.at, Added(s, e), k);
    }
  }

  lemma OperatorPotential(s: State, e: Event, k: nat)
    requires Enabled(s, e) && !Delivery(e)
    ensures Potential(Apply(s, e), k) <= Potential(s, k) + if e.ERollback? then ROLLBACK_WEIGHT else 0
  {
    if e.ERollback? {
      var added := Sent(RollbackMsg(ROLLBACK_RETRIES), e.sent);
      MeasuresAppend(s.queue, added, |s.shards|);
      assert added != [] ==> added[1..] == [];
    } else {
      OthersKeepQueue(s, e);
    }
  }

  lemma {:induction false} ShardsOnlyGrow(s: State, events: seq<Event>)
    requires IsRun(s, events)
    ensures |s.shards| <= |Exec(s, events).shards|
    decreases |events|
  {
    if events != [] {
      if !events[0].EPlanFinish? {
        SameShardCount(s, events[0]);
      }
      ShardsOnlyGrow(Apply(s, events[0]), events[1..]);
    }
  }

  lemma {:induction false} DeliveriesWithinPotential(s: State, events: seq<Event>, k: nat)
    requires Inv(s) && Winding(s) && IsRun(s, events) && |Exec(s, events).shards| <= k
    ensures Deliveries(events) <= Potential(s, k) + ROLLBACK_WEIGHT * Requests(events)
    decreases |events|
  {
    if events != [] {
      var e, s' := events[0], Apply(s, events[0]);
      StepKeepsInv(s, e);
      WindingStep(s, e);
      ShardsOnlyGrow(s', events[1..]);
      DeliveriesWithinPotential(s', events[1..], k);
      if Delivery(e) {
        DeliveryDropsPotential(s, e, k);
      } else {
        OperatorPotential(s, e, k);
      }
    }
  }

  /** In every run from creation, whatever operators and agents do, the worker deliveries are bounded by the number of
      shards planned and the number of rollbacks requested. */
  lemma WorkerActivityEnds(events: seq<Event>)
    requires IsRun(CREATED, events)
    ensures Deliveries(events) <=
            PLAN_STAGES + BUILD_WEIGHT + SHARD_WEIGHT * |Exec(CREATED, events).shards| + ROLLBACK_WEIGHT * Requests(events)
  {
    CreatedIsFine();
    assert Stages(CREATED.queue) == PlanStage(CREATED.queue[0]) + Stages([]) by {
      assert CREATED.queue[1..] == [];
    }
    assert Weights(CREATED.queue, 0) == Weight(CREATED.queue[0], 0) + Weights([], 0) by {
      assert CREATED.queue[1..] == [];
    }
    DeliveriesWithinPotential(CREATED, events, |Exec(CREATED, events).shards|);
  }

  // ── Undisturbed releases ───────────────────────────────────────────────────

  /** A worker step in which every read, write and enqueue works, or an agent's report. */
  predicate Undisturbed(e: Event) {
    match e
    case EPlanStart(_, readOk) => readOk
    case EPlanFinish(_, plan) => plan.Planned?
    case EBuild(_, build) => build.Built? && build.listOk && build.sent
    case EDispatchStart(_, readOk) => readOk
    case EDispatchFinish(_, dispatch) => dispatch.Dispatched? && dispatch.sent
    case EFinalizeCheck(_, readOk, sent) => readOk && sent
    case EFinalizeSettle(_, _, nextRead, sent) => nextRead && sent
    case EReport(_, _, _) => true
    case _ => false
  }

  predicate AllUndisturbed(events: seq<Event>) {
    forall i :: 0 <= i < |events| ==> Undisturbed(events[i])
  }

  /** A worker step in which everything works, an operator's pause, resume or cancel, or an agent's report. */
  predicate Smooth(e: Event) {
    Undisturbed(e) || e.EPause? || e.EResume? || e.ECancel?
  }

  predicate AllSmooth(events: seq<Event>) {
    forall i :: 0 <= i < |events| ==> Smooth(events[i])
  }

  predicate Over(st: Status) {
    st in {Status.Succeeded, Failed, Cancelled}
  }

  /** The token that belongs to an unfinished status. */
  predicate Carries(m: Message, st: Status) {
    match st
    case Pending => m.PlanMsg?
    case Planning => m.PlanBody? || m.BuildMsg?
    case Ready => m.DispatchMsg?
    case Executing => NamesShard(m)
    case Paused => NamesShard(m)
    case _ => false
  }

  /** Over, or carried on by exactly one token. */
  predicate Carried(s: State) {
    Over(s.row.status) || (|s.queue| == 1 && Carries(s.queue[0], s.row.status))
  }

  /** The half of a poll that loses the token: a check while the release is not executing, or a settlement that would
      have ended the release while it is not executing. */
  predicate Strands(s: State, e: Event)
    requires Enabled(s, e)
  {
    && s.row.status != Executing
    && (|| e.EFinalizeCheck?
        || (e.EFinalizeSettle? && (HasFailed(s.queue[e.at].stats, s.queue[e.at].retry) || s.queue[e.at].shard == |s.shards|)))
  }

  lemma OverStays(s: State, e: Event)
    requires Enabled(s, e) && Smooth(e) && Over(s.row.status)
    ensures Over(Apply(s, e).row.status)
  {
    var from, to := RowStep(s, e);
  }

  lemma SmoothSettlement(s: State, e: Event)
    requires ForwardPhase(s) && Carried(s) && !Over(s.row.status)
    requires Enabled(s, e) && e.EFinalizeSettle? && Undisturbed(e) && !Strands(s, e)
    ensures Carried(Apply(s, e))
  {
    var m := s.queue[0];
    assert s.queue == [m];
    SettleShardIs(s, m, e.currentRead, e.nextRead, e.sent);
    SettledIsCarried(s, m);
  }

  lemma SettledIsCarried(s: State, m: Message)
    requires m.SettleBody? && 1 <= m.shard <= |s.shards|
    requires s.row.status == Executing || (s.row.status == Paused && !HasFailed(m.stats, m.retry) && m.shard < |s.shards|)
    ensures Carried(AfterSettle(s, m, true, true))
  {
  }

  lemma SmoothDispatch(s: State, e: Event)
    requires ForwardPhase(s) && Carried(s) && !Over(s.row.status) && Enabled(s, e) && e.EDispatchFinish? && Undisturbed(e)
    requires s.queue[e.at].artifactRead.Some?
    ensures Carried(Apply(s, e))
  {
    DispatchFinishIs(s, e.at, e.dispatch);
    OnlyTheToken(s, e.at, AddedByDispatch(s.queue[e.at], e.dispatch));
  }

  lemma PollIsForward(s: State)
    requires ForwardPhase(s) && s.queue != [] && s.queue[0].FinalizeMsg?
    ensures !s.queue[0].isRollback
  {
  }

  lemma SmoothCheck(s: State, e: Event)
    requires ForwardPhase(s) && s.row.status == Executing && Enabled(s, e) && e.EFinalizeCheck? && Undisturbed(e)
    ensures Carried(Apply(s, e))
  {
    var m := s.queue[e.at];
    PollIsForward(s);
    FinalizeCheckIs(s, e.at, e.readOk, e.sent);
    OnlyTheToken(s, e.at, AddedByCheck(s, m, e.readOk, e.sent));
  }

  lemma SmoothPlanning(s: State, e: Event)
    requires |s.queue| <= 1 && Carried(s) && !Over(s.row.status)
    requires Enabled(s, e) && Undisturbed(e) && (e.EPlanStart? || e.EPlanFinish?)
    ensures Carried(Apply(s, e))
  {
    DeliveryAdds(s, e);
    OnlyTheToken(s, e.at, Added(s, e));
  }

  lemma SmoothBuild(s: State, e: Event)
    requires ForwardPhase(s) && Carried(s) && !Over(s.row.status) && Enabled(s, e) && Undisturbed(e) && e.EBuild?
    ensures Carried(Apply(s, e))
  {
    DeliveryAdds(s, e);
    OnlyTheToken(s, e.at, Added(s, e));
    assert TokenFits(s, s.queue[0]);
  }

  lemma SmoothStart(s: State, e: Event)
    requires |s.queue| <= 1 && Carried(s) && !Over(s.row.status) && Enabled(s, e) && Undisturbed(e) && e.EDispatchStart?
    ensures Carried(Apply(s, e))
  {
    OnlyTheToken(s, e.at, AddedByStart(s, s.queue[e.at], true));
  }

  lemma SmoothOperator(s: State, e: Event)
    requires Carried(s) && !Over(s.row.status) && (e.EPause? || e.EResume? || e.ECancel? || e.EReport?)
    ensures Carried(Apply(s, e))
  {
  }

  /** Every smooth step but a stranding one leaves the release over or carried on. */
  lemma SmoothStep(s: State, e: Event)
    requires Inv(s) && !RollbackStarted(s.row) && Carried(s) && Enabled(s, e) && Smooth(e) && !Strands(s, e)
    ensures Carried(Apply(s, e))
  {
    if Over(s.row.status) {
      OverStays(s, e);
    } else {
      match e
      case EFinalizeSettle(_, _, _, _) => SmoothSettlement(s, e);
      case EDispatchFinish(at, _) =>
        assert s.queue[at] in s.queue;
        SmoothDispatch(s, e);
      case EFinalizeCheck(_, _, _) => SmoothCheck(s, e);
      case EPlanStart(_, _) => SmoothPlanning(s, e);
      case EPlanFinish(_, _) => SmoothPlanning(s, e);
      case EBuild(_, _) => SmoothBuild(s, e);
      case EDispatchStart(_, _) => SmoothStart(s, e);
      case _ => SmoothOperator(s, e);
    }
  }

  lemma StrandingEmptiesTheQueue(s: State, e: Event)
    requires ForwardPhase(s) && Enabled(s, e) && Smooth(e) && Strands(s, e)
    ensures Apply(s, e).queue == []
  {
    var m := s.queue[e.at];
    assert s.queue == [m];
    if e.EFinalizeCheck? {
      PollIsForward(s);
      FinalizeCheckIs(s, e.at, e.readOk, e.sent);
      OnlyTheToken(s, e.at, AddedByCheck(s, m, e.readOk, e.sent));
    } else {
      SettleShardIs(s, m, e.currentRead, e.nextRead, e.sent);
    }
  }

  lemma EmptyQueueStays(s: State, e: Event)
    requires s.queue == [] && Enabled(s, e) && Smooth(e)
    ensures Apply(s, e).queue == []
  {
  }

  /** Event `n` of the run is a stranding half of a poll. */
  ghost predicate StrandsAt(events: seq<Event>, n: nat)
    requires IsRun(CREATED, events) && n < |events|
  {
    StateAtStep(events, n);
    Strands(StateAt(events, n), events[n])
  }

  ghost predicate SomePollStrands(events: seq<Event>)
    requires IsRun(CREATED, events)
  {
    exists n :: 0 <= n < |events| && StrandsAt(events, n)
  }

  lemma StrandsInPrefix(events: seq<Event>, n: nat, k: nat)
    requires IsRun(CREATED, events) && k < n <= |events|
    ensures IsRun(CREATED, events[..n]) && (StrandsAt(events[..n], k) <==> StrandsAt(events, k))
  {
    PrefixIsRun(CREATED, events, n);
    assert events[..n][..k] == events[..k];
  }

  lemma StrandsSnoc(events: seq<Event>)
    requires IsRun(CREATED, events) && events != []
    ensures var front, n := events[..|events| - 1], |events| - 1;
            && IsRun(CREATED, front)
            && (SomePollStrands(events) <==> SomePollStrands(front) || StrandsAt(events, n))
  {
    var n := |events| - 1;
    PrefixIsRun(CREATED, events, n);
    if SomePollStrands(events[..n]) {
      var k :| 0 <= k < n && StrandsAt(events[..n], k);
      StrandsInPrefix(events, n, k);
    } else if SomePollStrands(events) {
      var k :| 0 <= k < |events| && StrandsAt(events, k);
      if k < n {
        StrandsInPrefix(events, n, k);
      }
    }
  }

  lemma {:induction false} SmoothRun(events: seq<Event>)
    requires IsRun(CREATED, events) && AllSmooth(events)
    ensures var s := Exec(CREATED, events);
            && Inv(s) && !RollbackStarted(s.row)
            && (if SomePollStrands(events) then s.queue == [] else Carried(s))
  {
    if events == [] {
      CreatedIsFine();
    } else {
      var n := |events| - 1;
      RunUnsnoc(CREATED, events);
      StrandsSnoc(events);
      SmoothRun(events[..n]);
      SmoothRunStep(Exec(CREATED, events[..n]), events[n], SomePollStrands(events[..n]));
      assert StateAt(events, n) == Exec(CREATED, events[..n]);
    }
  }

  lemma SmoothRunStep(s: State, e: Event, stranded: bool)
    requires Inv(s) && !RollbackStarted(s.row) && Enabled(s, e) && Smooth(e)
    requires if stranded then s.queue == [] else Carried(s)
    ensures var s' := Apply(s, e);
            && Inv(s') && !RollbackStarted(s'.row)
            && (if stranded || Strands(s, e) then s'.queue == [] else Carried(s'))
  {
    StepKeepsInv(s, e);
    OnlyRequestsStartRollbacks(s, e);
    if stranded {
      EmptyQueueStays(s, e);
    } else if Strands(s, e) {
      StrandingEmptiesTheQueue(s, e);
    } else {
      SmoothStep(s, e);
    }
  }

  /** Pausing, resuming and cancelling at will while everything else works: a release that is not over has nothing
      queued exactly when some poll of the run stranded it. */
  lemma StuckExactlyWhenStranded(events: seq<Event>)
    requires IsRun(CREATED, events) && AllSmooth(events) && !Over(Exec(CREATED, events).row.status)
    ensures Exec(CREATED, events).queue == [] <==> SomePollStrands(events)
  {
    SmoothRun(events);
  }

  // ── ... and undisturbed ones ───────────────────────────────────────────────

  predicate Decided(st: Status) {
    st in {Status.Succeeded, Failed}
  }

  /** Nobody paused or cancelled, and a stranding poll can only have met a decided release. */
  lemma {:induction false} UndisturbedRun(events: seq<Event>)
    requires IsRun(CREATED, events) && AllUndisturbed(events)
    ensures AllSmooth(events) && Requests(events) == 0
    ensures var s := Exec(CREATED, events);
            s.row.status !in {Paused, Cancelled} && (SomePollStrands(events) ==> Decided(s.row.status))
  {
    NothingRequested(events);
    if events != [] {
      var n := |events| - 1;
      RunUnsnoc(CREATED, events);
      UndisturbedRun(events[..n]);
      SmoothRun(events[..n]);
      StrandsSnoc(events);
      var s := Exec(CREATED, events[..n]);
      assert StateAt(events, n) == s;
      UndisturbedRow(s, events[n]);
      if !SomePollStrands(events[..n]) && StrandsAt(events, n) {
        OnlyPausesStrand(s, events[n]);
      }
    }
  }

  lemma UndisturbedRow(s: State, e: Event)
    requires Enabled(s, e) && Undisturbed(e) && s.row.status !in {Paused, Cancelled}
    ensures Apply(s, e).row.status !in {Paused, Cancelled}
    ensures Decided(s.row.status) ==> Decided(Apply(s, e).row.status)
  {
    var from, to := RowStep(s, e);
    assert to !in {Paused, Cancelled, RollingBack};
  }

  lemma OnlyPausesStrand(s: State, e: Event)
    requires Enabled(s, e) && Carried(s) && Strands(s, e) && s.row.status !in {Paused, Cancelled}
    ensures Decided(s.row.status)
  {
  }

  lemma {:induction false} NothingRequested(events: seq<Event>)
    requires AllUndisturbed(events)
    ensures Requests(events) == 0
  {
    if events != [] {
      assert forall i :: 0 <= i < |events[1..]| ==> events[1..][i] == events[i + 1];
      NothingRequested(events[1..]);
    }
  }

  /** Every undisturbed release is decided: as long as it is neither succeeded nor failed a message waits for a worker,
      and the workers run out of messages after a bounded number of deliveries. */
  lemma UndisturbedReleaseIsDecided(events: seq<Event>)
    requires IsRun(CREATED, events) && AllUndisturbed(events)
    ensures var s := Exec(CREATED, events); s.queue == [] ==> Decided(s.row.status)
    ensures Deliveries(events) <= PLAN_STAGES + BUILD_WEIGHT + SHARD_WEIGHT * |Exec(CREATED, events).shards|
  {
    UndisturbedRun(events);
    SmoothRun(events);
    WorkerActivityEnds(events);
  }

  // ── Polls ──────────────────────────────────────────────────────────────────

  predicate IsPoll(s: State, e: Event)
    requires Enabled(s, e)
  {
    e.EFinalizeCheck? && !s.queue[e.at].isRollback
  }

  /** How many non-rollback Finalize deliveries the run contains. */
  ghost function Polls(s: State, events: seq<Event>): nat
    requires IsRun(s, events)
    decreases |events|
  {
    if events == [] then 0
    else (if IsPoll(s, events[0]) then 1 else 0) + Polls(Apply(s, events[0]), events[1..])
  }

  predicate Early(m: Message) {
    m.PlanMsg? || m.PlanBody? || m.BuildMsg?
  }

  /** `polls` polls have happened and the queue can cause only so many more. */
  predicate WithinBudget(s: State, polls: nat) {
    && polls + Budget(s.queue, |s.shards|) <= POLLS_PER_SHARD * |s.shards|
    && (polls > 0 ==> forall m :: m in s.queue ==> !Early(m))
  }

  /** A delivery's own poll and the polls of the message it adds are paid for by the delivered one. */
  lemma AddedIsPaidFor(s: State, e: Event)
    requires QueueSound(s) && Winding(s) && Enabled(s, e) && Delivery(e) && !e.EPlanFinish?
    ensures var m, added, k := s.queue[e.at], Added(s, e), |s.shards|;
            && (if IsPoll(s, e) then 1 else 0) + (if added == [] then 0 else PollsLeft(added[0], k)) <= PollsLeft(m, k)
            && (added != [] && Early(added[0]) ==> Early(m))
  {
    var m := s.queue[e.at];
    assert m in s.queue;
    if e.EFinalizeSettle? {
      SettleIsLighter(s, e);
    } else if e.EDispatchFinish? {
      DispatchPays(m.shard, |s.shards|);
    } else if e.EFinalizeCheck? {
      CheckPays(s, m, e.readOk, e.sent);
    }
  }

  lemma CheckPays(s: State, m: Message, readOk: bool, sent: bool)
    requires m.FinalizeMsg? && InRange(m, |s.shards|)
    ensures var added, k := AddedByCheck(s, m, readOk, sent), |s.shards|;
            (if m.isRollback then 0 else 1) + (if added == [] then 0 else PollsLeft(added[0], k)) <= PollsLeft(m, k)
  {
  }

  lemma DispatchPays(shard: nat, k: nat)
    requires 0 < shard <= k
    ensures POLLS_PER_SHARD * Monus(k, shard) + POLLS_PER_SHARD <= POLLS_PER_SHARD * Monus(k + 1, shard)
  {
  }

  lemma BudgetFrom(s: State, s': State, at: nat, added: seq<Message>, polls: nat, polled: nat)
    requires Tokens(s.queue) <= 1 && WithinBudget(s, polls)
    requires at < |s.queue| && |added| <= 1 && polled <= 1
    requires s'.queue == Take(s.queue, at) + added && |s'.shards| == |s.shards|
    requires polled + (if added == [] then 0 else PollsLeft(added[0], |s.shards|)) <= PollsLeft(s.queue[at], |s.shards|)
    requires added != [] && Early(added[0]) ==> Early(s.queue[at])
    requires polled > 0 ==> s.queue[at].FinalizeMsg? && Forward(s.queue[at])
    ensures WithinBudget(s', polls + polled)
  {
    MeasuresTake(s.queue, at, added, |s.shards|);
    assert s.queue[at] in s.queue;
    if polled > 0 {
      OthersAreNotForward(s.queue, at);
    }
    forall n | n in s'.queue
      ensures (n in s.queue && n in Take(s.queue, at)) || (added != [] && n == added[0])
    {
    }
  }

  lemma DeliveryBudget(s: State, e: Event, polls: nat)
    requires QueueSound(s) && ArtifactPresent(s) && Winding(s) && WithinBudget(s, polls)
    requires Enabled(s, e) && Delivery(e) && !e.EPlanFinish?
    ensures WithinBudget(Apply(s, e), polls + if IsPoll(s, e) then 1 else 0)
  {
    assert s.queue[e.at] in s.queue;
    DeliveryAdds(s, e);
    AddedIsSmall(s, e);
    AddedIsPaidFor(s, e);
    SameShardCount(s, e);
    BudgetFrom(s, Apply(s, e), e.at, Added(s, e), polls, if IsPoll(s, e) then 1 else 0);
  }

  lemma OperatorBudget(s: State, e: Event, polls: nat)
    requires WithinBudget(s, polls) && Enabled(s, e) && !Delivery(e)
    ensures WithinBudget(Apply(s, e), polls)
  {
    SameShardCount(s, e);
    if e.ERollback? {
      var added := Sent(RollbackMsg(ROLLBACK_RETRIES), e.sent);
      MeasuresAppend(s.queue, added, |s.shards|);
      assert added != [] ==> added[1..] == [];
    } else {
      OthersKeepQueue(s, e);
    }
  }

  lemma BudgetStep(s: State, e: Event, polls: nat)
    requires Inv(s) && Winding(s) && Enabled(s, e) && WithinBudget(s, polls)
    ensures WithinBudget(Apply(s, e), polls + if IsPoll(s, e) then 1 else 0)
  {
    if !Delivery(e) {
      OperatorBudget(s, e, polls);
    } else if e.EPlanFinish? {
      PlanBudget(s, e, polls);
    } else {
      DeliveryBudget(s, e, polls);
    }
  }

  lemma {:induction false} NoForwardNoBudget(q: seq<Message>, k: nat)
    requires forall m :: m in q ==> !Forward(m)
    ensures Budget(q, k) == 0
  {
    if q != [] {
      assert q[0] in q && forall m :: m in q[1..] ==> m in q;
      NoForwardNoBudget(q[1..], k);
    }
  }

  lemma PlanBudgetFrom(s': State, rest: seq<Message>, added: seq<Message>)
    requires s'.queue == rest + added && |added| <= 1 && (forall m :: m in rest ==> !Forward(m))
    requires added != [] ==> added[0].PlanMsg? || added[0].BuildMsg?
    ensures WithinBudget(s', 0)
  {
    NoForwardNoBudget(rest, |s'.shards|);
    MeasuresAppend(rest, added, |s'.shards|);
    assert added != [] ==> added[1..] == [];
  }

  /** Planning happens before any poll, and pays for the shards it creates. */
  lemma PlanBudget(s: State, e: Event, polls: nat)
    requires Inv(s) && Enabled(s, e) && e.EPlanFinish? && WithinBudget(s, polls)
    ensures polls == 0 && WithinBudget(Apply(s, e), 0)
  {
    assert s.queue[e.at] in s.queue;
    DeliveryAdds(s, e);
    OthersAreNotForward(s.queue, e.at);
    PlanBudgetFrom(Apply(s, e), Take(s.queue, e.at), Added(s, e));
  }

  lemma {:induction false} RunStaysWithinBudget(s: State, events: seq<Event>, polls: nat)
    requires Inv(s) && Winding(s) && IsRun(s, events) && WithinBudget(s, polls)
    ensures WithinBudget(Exec(s, events), polls + Polls(s, events))
    decreases |events|
  {
    if events != [] {
      StepKeepsInv(s, events[0]);
      WindingStep(s, events[0]);
      BudgetStep(s, events[0], polls);
      RunStaysWithinBudget(Apply(s, events[0]), events[1..], polls + if IsPoll(s, events[0]) then 1 else 0);
    }
  }

  /** In every run, operators and rollbacks included, the non-rollback Finalize deliveries number at
      most 361 per shard. */
  lemma PollsAreBounded(events: seq<Event>)
    requires IsRun(CREATED, events)
    ensures Polls(CREATED, events) <= POLLS_PER_SHARD * |Exec(CREATED, events).shards|
  {
    CreatedIsFine();
    assert CREATED.queue[1..] == [];
    RunStaysWithinBudget(CREATED, events, 0);
  }
}
