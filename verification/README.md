# Domain platform: verified models

A Dafny model of the parts of the domain platform whose correctness is hardest to see from one
function: the queue-driven release engine, the blocking-verdict pipeline with its alerts, the
maintenance-window evaluator, the agent's snapshots, and the smaller algorithms around them.
`dafny verify dfyconfig.toml` checks all of it.

## How it is organised

**Release engine.** `ReleaseStates` is the transition graph and the compare-and-swap on the release
row. `ReleaseProtocol` is the engine as a state machine: the rows it writes plus the queued messages.
Plan, Dispatch and Finalize are cut into the piece up to their status read or swap and the rest; the
rest waits in the queue as a continuation, so operators, agents and other handlers may act in between. Handlers that
return an error are redelivered while attempts are left, enqueues may be lost, and any queued message
may disappear. `ReleaseInvariant` proves the single-token invariant for every event,
`ReleaseRuns` follows single tasks along a run, `ReleasePolls` takes one Finalize delivery as a whole,
`ReleaseTheorems`, `ReleaseTermination` and `ReleaseFindings` draw the consequences for whole runs,
`ReleaseEffects` says for every event what it does to status, messages, shards and tasks, in terms of the rows,
and `ReleaseService` is the service as a class whose handlers update the rows in place and are proved
to do what the protocol pieces do. `ShardPlanner`, `RoundRobin` and `ReloadBatching` are the loops the
handlers call.

**Verdict pipeline.** `BlockingAnalyzer` (the four-layer classifier), `ConfidenceTracker` (the
per-domain state against its observation history), `AlertEngine` (dedup and fan-out),
`TrackerRaces` (the tracker without a lock), `VerdictPipeline`, which joins them end to end, and
`VerdictEvidence`, which compares what the tracker remembers with what happened.

**The rest.** `DecimalText`, `CronField` and `CronWindow` (maintenance windows), `AgentSnapshot` (the
agent's deploy tree), `DnsTemplate`, `DnsDrift`, and `CsvImport` with `CsvMeaning`. `Wrappers`, `Collections` and
`AsciiText` hold small shared definitions.

The model follows the code where code and comments disagree. The places where the code does not do
what its comments promise, each with the exact condition under which it does:

- A release that is paused while it is polled, at the check or before the settlement of its last
  shard, loses its only message: it can be resumed, but never finishes
  (`ReleaseFindings.PauseStrandsARelease`, `ReleaseFindings.PauseBeforeSettlementStrandsARelease`,
  exactly when: `ReleasePolls.PollStrandsExactly`, over runs: `ReleaseTermination.StuckExactlyWhenStranded`).
- A failed read of the next shard ends the release as succeeded with shards left
  (`ReleaseFindings.FailedReadSucceedsTooEarly`, `ReleaseTheorems.SuccessIsTotalExactlyWhenRead`).
- A rollback counts the deploy tasks too, so a release that failed on a task is reported as rolled
  back only if a later report overwrites that task
  (`ReleaseFindings.DeployFailureRulesOutRolledBack`, `ReleaseFindings.RewrittenFailureRollsBack`,
  exactly when: `ReleasePolls.RolledBackExactlyWhenAllDone`).
- Weekly and monthly windows lose the part after midnight (`CronWindow.WeeklyIsRightExactly`,
  `CronWindow.MonthlyIsRightExactly`), and cron windows of a week or longer can be missed
  (`CronWindow.SearchLimitIsHarmlessExactly`). Ranges and steps, which
  the evaluator does not claim to support, are read as their first number or as nothing. All five
  cron fields must match, day of month and day of week included, unlike the crontab of POSIX.1-2017.
- The borderline severity P3 is computed and never fired (`VerdictPipeline.BorderlineNeverFires`), and a
  failed tracker call resolves a live alert (`VerdictPipeline.TrackerFailureResolves`, exactly when:
  `VerdictPipeline.FiresOrResolvesExactly`); an accessible verdict whose tracker call fails leaves old reports behind that can complete an alert
  (`VerdictEvidence.StaleReportCompletesAnAlert`, exactly when: `VerdictEvidence.UnbackedAlertsExactly`);
  a missing control measurement does not cap the confidence (`VerdictPipeline.ProbesAloneReachP1`,
  exactly when: `VerdictEvidence.UncontrolledConfidenceExactly`).
- The Redis tracker loads and saves without a lock, so overlapping calls lose observations
  (exactly which: `TrackerRaces.LostExactly`).
- The dedup check and the insert are two statements, so overlapping calls both insert
  (`AlertEngine.OverlappingFiresBreakDedup`, exactly when: `AlertEngine.InterleavingsDeduplicateExactly`).
- The agent writes the new files before it takes the "previous" snapshot, so rolling back a release
  reproduces it (`AgentSnapshot.RollbackReproducesTheDeploy`, `AgentSnapshot.RollbackUndoesOnlyNoOps`).
- A rendered template can hold a placeholder although no value does, when braces or name characters next to a
  variable join with its value (`DnsTemplate.PlaceholderComesBack`, exactly when: `DnsTemplate.StaysCleanExactly`).
- The drift counter never counts a changed value (`DnsDrift.CheckDrift`).
- Import errors of the worker carry the wrong line after any invalid row
  (`CsvImport.ReportedLineIsRightExactly`).

## Model

| member | source | states |
|---|---|---|
| ReleaseStates.HistoryIsALegalPath | internal/release/service.go:66-110 | under any interleaving of transition attempts with possibly stale `from`, the history only grows, one row per committed attempt, and is a connected path of legal edges ending at the current status |
| ReleaseStates.TerminalIsFrozen | internal/release/statemachine.go:13-38 | succeeded, rolled_back and cancelled are never left, whatever is attempted |
| ReleaseStates.FailureIsFinal | internal/release/statemachine.go:13-24 | after failed or rolling_back a release never becomes executing or succeeded again |
| ReleaseStates.ExactlyOneRacerWins | internal/release/service.go:76-110 | of any number of callers racing for one edge from the current status exactly one commits |
| ReleaseStates.EntriesAre | internal/release/statemachine.go:13-38 | who may enter each state: an edge is legal if and only if it is in this reversed table; exactly succeeded, rolled_back and cancelled are terminal |
| ReleaseInvariant.StepKeepsInv | internal/release/service.go:271-860 | every event (handler piece, operator, agent report, lost message) keeps the single-token invariant: shard order, counters, artifact and the one forward message that fits them |
| ReleaseInvariant.RunKeepsInv | internal/release/service.go:271-860 | the invariant holds after every run |
| ReleaseInvariant.NextIsAdjacent | store/postgres/release.go:456-476 | while shards are in order, the next pending shard is the one right after the settled ones |
| ReleaseTheorems.ShardsAreProcessedInOrder | internal/release/service.go:409-826 | until a rollback starts, the shards are a succeeded prefix, at most one in-flight or failed shard, then pending ones, and at most one message is queued |
| ReleaseTheorems.SuccessMeansAllShards | internal/release/service.go:652-826 | with working next-shard reads, a succeeded release has every shard succeeded and settled exactly once, in order, with no failed, timed-out or unfinished task |
| ReleaseTheorems.SuccessIsTotalExactlyWhenRead | internal/release/service.go:786-818 | a settlement that ends the release leaves every shard succeeded if and only if the next-shard read worked or the shard was the last |
| ReleaseTheorems.SuccessMeansAllTasksDone | internal/release/service.go:652-826 | for every shard of a succeeded release there was a point of the run at which each of its tasks had succeeded or was cancelled; a task in another state now was reported on after that |
| ReleaseTheorems.CountersAreConserved | internal/release/service.go:758-763 | until a rollback starts, the release counters are the sums over shards and over settlements, each shard settles at most once, and success plus failure never exceeds the tasks created nor those the planned domains |
| ReleaseTheorems.ArtifactIsNeverMissing | internal/release/service.go:477-480 | a release that is ready, executing, paused or succeeded, or has a queued dispatch, has its artifact, so the missing-artifact branch is never taken |
| ReleaseTheorems.LegacyFinalizeIsUnreachable | internal/release/service.go:828-859 | no run queues a Finalize without shard that is not a rollback |
| ReleaseTheorems.RunHistoryIsLegal | internal/release/service.go:76-110 | the history of every run of the engine is a connected legal path that never leaves a terminal state nor executes after a failure |
| ReleaseFindings.TokensNeverGrow | internal/release/service.go:271-895 | nothing ever adds a forward message beyond the one a release starts with |
| ReleasePolls.PollStrandsExactly | internal/release/service.go:652-826 | a whole poll, check and settlement, with operators and agents acting in between, leaves neither a message nor a decision if and only if the release was not executing at the check, or the check led to a settlement that would have ended it and it was not executing then |
| ReleasePolls.SettlementStrandsExactly | internal/release/service.go:758-826 | the same for the settlement half: not executing, and the shard failed or was the last |
| ReleaseFindings.StrandedForever | internal/release/service.go:658-669 | a release that has not succeeded and has no forward message never settles another shard and never succeeds, in any continuation |
| ReleaseFindings.PauseStrandsARelease | internal/release/service.go:865-872 | a reachable release that executes with every agent task succeeded and that can never succeed: pause, poll, resume |
| ReleaseFindings.PauseBeforeSettlementStrandsARelease | internal/release/service.go:758-826 | a second one: polled while executing, paused before the settlement, resumed; every shard has succeeded, nothing is queued, and it can never succeed |
| ReleaseFindings.FailedReadSucceedsTooEarly | internal/release/service.go:786-818 | a reachable release that succeeded with its second shard still pending |
| ReleaseFindings.RolledBackNeedsACleanPoll | internal/release/service.go:671-750 | in every run, rolled_back is reached only through a rollback poll that found every task of the release succeeded or cancelled |
| ReleaseFindings.DeployFailureRulesOutRolledBack | internal/release/service.go:671-750 | a release with a deploy failure before any rollback reaches rolled_back only if a later report overwrites that very task |
| ReleaseFindings.RewrittenFailureRollsBack | internal/agent/service.go:235-268 | that exception is reachable: a failed release whose task is reported again ends as rolled back |
| ReleasePolls.RolledBackExactlyWhenAllDone | internal/release/service.go:671-755 | a rollback poll that settles ends as rolled_back if and only if every task of the release, deploy tasks included, had succeeded or was cancelled at the check; otherwise the release fails |
| ReleaseTermination.DeliveryDrops | internal/release/service.go:640-718 | every worker delivery drops a lexicographic measure of shards, stage and polls left |
| ReleaseTermination.DeliveriesAreBounded | internal/release/service.go:640-826 | once planning is over, the deliveries still to come are bounded by the weight of the queue |
| ReleaseTermination.WorkerActivityEnds | internal/release/service.go:640-826 | in every run from creation the worker deliveries are bounded by 11 + 408 per shard + 402 per rollback request |
| ReleaseTermination.UndisturbedReleaseIsDecided | internal/release/service.go:271-826 | with no operator steps, losses or failed reads and writes, an empty queue means that the release has succeeded or failed, after a bounded number of deliveries |
| ReleaseTermination.StuckExactlyWhenStranded | internal/release/service.go:652-895 | with pauses, resumes and cancels at will while everything else works, a release that is not succeeded, failed or cancelled has nothing queued if and only if some poll of the run stranded it: checked while not executing, or settled its last or a failed shard while not executing |
| ReleaseTermination.PollsAreBounded | internal/release/service.go:640-718 | in every run the non-rollback Finalize deliveries number at most 361 per shard |
| ReleasePolls.SettlingPollDecides | internal/release/service.go:692-826 | a poll that settles records its shard once, as succeeded if and only if every task of the shard was succeeded or cancelled at the check; a failed shard fails a release that still executes |
| ReleasePolls.LastPollSettles | internal/release/service.go:640-826 | the poll with retry 360 of an executing release always settles its shard, as failed if anything was unfinished |
| ReleasePolls.CleanExactlyWhenDone | store/postgres/agent.go:453-494 | the task statistics show no failed, timed-out or unfinished task exactly when every task has succeeded or was cancelled |
| ReleaseEffects.StatusMovesExactly | internal/release/service.go:271-895 | for every event, exactly when it changes the status, from which to which, with one history line: planning failures, the build, the first dispatch, settlements by their statistics and the shards still pending, rollbacks without agents, and the operators |
| ReleaseEffects.StatsMean | store/postgres/agent.go:453-494 | each counter of the task statistics is the number of tasks in its status; pending, claimed and running tasks are in progress |
| ReleaseEffects.RollbackTellsEveryAgent | internal/release/rollback.go:126-211 | a rollback that finds agents and domains keeps its old tasks and adds one pending task for each agent of the release (each online one if the release has no task) whose insert works and that has none; nobody is told twice, nobody else is told, and a rollback poll is sent |
| ReleaseEffects.ErrorsAreRedelivered | internal/release/service.go:271-636 | a handler that fails leaves its message in the queue with one attempt fewer, unless it had none left |
| ReleaseEffects.HandlersPassOn | internal/release/service.go:380-636 | a handler that works sends the next message with that one's full attempts: 2 for the build, 3 for a dispatch, a first poll after a dispatch |
| ReleaseEffects.PollsPassOn | internal/release/service.go:652-720 | a poll is dropped once the release has left the polled status, settles when nothing is in progress or at retry 360, and otherwise comes again with the next number |
| ReleaseEffects.PollReadsTasks | internal/release/service.go:671-690 | a poll reads the tasks of its shard, with the rollback tasks for the first one, and a rollback poll all of the release |
| ReleaseEffects.RequestsPassOn | internal/release/rollback.go:80-101 | a rollback request that moves the row sends one message with two retries |
| ReleaseEffects.SettlementPassesOn | internal/release/service.go:786-812 | a clean shard settlement sends the dispatch of the lowest pending shard above it |
| ReleaseEffects.SettlementCounts | internal/release/service.go:728-860 | a settlement adds its counts to the release and writes them, with the status, to its shard; a whole-release one to every shard, the status only if the release moved |
| ReleaseEffects.PlanAddsShards | internal/release/service.go:338-378 | a plan appends one pending shard for each size, in order, without tasks |
| ReleaseEffects.DispatchCreatesTasks | internal/release/service.go:481-625 | a dispatch appends one pending task for each agent, in order, to its shard, which is then running; a failed one leaves it dispatching, and no other shard changes |
| ReleaseEffects.ReportWrites | internal/agent/service.go:235-268 | a report writes the status of one task and nothing else |
| ReleaseEffects.NothingElseChanges | internal/release/service.go:271-895 | for every event, the columns it leaves alone |
| ReleaseService.Service.constructor | internal/release/service.go:128-241 | a new release is pending with its plan message queued |
| ReleaseService.Service.TransitionRelease | internal/release/service.go:76-110 | legal edge and expected status: committed with one history row; otherwise the row is untouched and the error says which check failed |
| ReleaseService.Service.HandlePlan | internal/release/service.go:271-402 | does what the two planning pieces do back to back; once the release is planning, the outcome is unread exactly without the scopes, aborted exactly without domains or when a shard or the build message cannot be stored, and otherwise has the sizes of the planner's shards |
| ReleaseService.Service.HandleBuild | internal/release/service.go:409-450 | stores the artifact, becomes ready and sends the first dispatch, or is redelivered |
| ReleaseService.Service.HandleDispatch | internal/release/service.go:456-636 | does what the two dispatch pieces do; it goes through exactly when the reads work and the release has its artifact; then the envelopes are the round-robin items with batched reload flags, one agent task per inserted item; for the domain tasks of the shard the outcome is one the protocol accepts |
| ReleaseService.CreatedAre | internal/release/service.go:582-611 | the tasks created by a dispatch are those of the items whose insert works, in order, each for its item's agent |
| ReleaseService.Service.HandleFinalize | internal/release/service.go:652-860 | does what the check and, when it settles, the settlement do |
| ReleaseService.Service.GetNextPendingShard | store/postgres/release.go:456-476 | the lowest pending shard above the given index, or none exactly when there is none |
| ReleaseService.Service.InvolvedAgents | internal/release/rollback.go:126-134 | the agents of the tasks, each once and exactly those that have one |
| ReleaseService.Service.HandleRollback | internal/release/rollback.go:109-218 | does what the protocol's rollback execution does, whose effect on tasks and agents is `ReleaseEffects.RollbackTellsEveryAgent` |
| ReleaseService.Service.Pause | internal/release/service.go:865-867 | succeeds exactly from executing, then the release is paused; changes nothing but the row |
| ReleaseService.Service.Resume | internal/release/service.go:870-872 | succeeds exactly from paused, then the release is executing; re-enqueues nothing |
| ReleaseService.Service.Cancel | internal/release/service.go:876-895 | succeeds exactly when the status it read is pending, planning, ready, paused or failed and is still current |
| ReleaseService.Service.Rollback | internal/release/rollback.go:33-101 | succeeds exactly when a previous release exists and the status it read is paused or failed and still current; then one rollback message is sent |
| ReleaseService.PlanKeepsTheTotal | internal/release/service.go:338-373 | the shard sizes of a plan add up to the number of domains |
| ReleaseService.PlannerFitsProtocol | internal/release/planner.go:44-87 | every plan of at least one domain is one the protocol's planning step accepts: shards exist and none is empty |
| ReleaseService.DispatchFitsProtocol | internal/release/service.go:519-611 | at most one task per domain task of the shard is what the protocol's dispatch step accepts |
| ShardPlanner.PlanByHostGroup | internal/release/planner.go:44-87 | returns a plan: one shard per host group in ascending order, the ungrouped domains last |
| ShardPlanner.PlanIsAPartition | internal/release/planner.go:44-87 | the shards partition the input domains as a multiset |
| ShardPlanner.PlanIsOrdered | internal/release/planner.go:60-87 | indices are 0 to k-1, groups strictly ascend, the default shard is last, and each shard keeps input order |
| ShardPlanner.PlanHasNoEmptyShard | internal/release/planner.go:44-87 | with at least one domain no shard is empty |
| ShardPlanner.MembersAre | internal/release/planner.go:44-75 | the domains of a host group's shard are those that name it, in input order; those of the last shard name none, or one that is not positive |
| ShardPlanner.PlanIsDeterministic | internal/release/planner.go:44-87 | two plans of the same input are equal, whatever order the map was ranged in |
| RoundRobin.BuildItems | internal/release/service.go:519-575 | one item, in row order, for each row whose domain is found and for which there is somebody; it carries the row's id and host group and the agent at the row's number, counted cyclically, among the host group's online agents if the group is positive and has any, else among all online agents; found rows without anybody are reported unassigned |
| RoundRobin.SharesAreExact | internal/release/service.go:519-575 | with one agent list, whatever the pattern of failed lookups, agent p of k gets exactly its round-robin share of n turns less the turns that went to missing domains |
| RoundRobin.RoundRobinIsBalanced | internal/release/service.go:519-575 | without failed lookups any two agents of the list differ by at most one task |
| RoundRobin.FailedLookupsUnbalance | internal/release/service.go:519-575 | with failed lookups two agents differ by the difference of their missed turns, up to one |
| ReloadBatching.ApplyReloadBatching | internal/release/dispatcher.go:33-69 | the in-place result is a fixed function of the input, independent of map order, and only deferral flags change |
| ReloadBatching.FlagsMean | internal/release/dispatcher.go:33-69 | a task that is its agent's only one is left alone; else it reloads exactly if it is the agent's last or completes a batch, and only the flag changes |
| ReloadBatching.BatchSizeIs | internal/release/dispatcher.go:50-56 | the batch size is the positive one of the host group of the agent's first item, or none |
| ReloadBatching.ReloadCount | internal/release/dispatcher.go:33-69 | an agent with n tasks and batch size b reloads exactly ceil(n/b) times, once when b is 0 |
| ReloadBatching.LastTaskReloads | internal/release/dispatcher.go:48-66 | the last task of an agent with several tasks is never deferred (a single task keeps its flag) |
| ReloadBatching.DeferredRunIsShort | internal/release/dispatcher.go:48-66 | no run of deferred tasks of one agent reaches the batch size |
| CronField.MatchCronField | internal/maintenance/service.go:332-344 | true exactly when the field is a star or some comma part scans as the value |
| CronField.JoinUndoesSplit | internal/maintenance/service.go:336-336 | joining the comma parts gives the field back and no part contains a comma |
| CronField.SplitUndoesJoin | internal/maintenance/service.go:336-336 | comma-free parts joined by commas are split back into themselves |
| CronField.ScanUndoesDecimal | internal/maintenance/service.go:339-341 | scanning a printed number gives it back whatever non-digit text follows |
| CronField.ScanReadsSigns | internal/maintenance/service.go:339-341 | a minus in front of the digits makes the number negative, a plus changes nothing |
| CronField.ScansExactly | internal/maintenance/service.go:339-341 | a text scans exactly if it starts with a digit, or a sign and a digit |
| CronField.SpacedNumberMatches | internal/maintenance/service.go:336-341 | a number with white space around it, in any amount, is still read |
| CronField.ListFieldMatchesItsMembers | internal/maintenance/service.go:306-310 | the text of a list field matches exactly the numbers in the list |
| CronField.RangeFieldMatchesItsStart | internal/maintenance/service.go:332-344 | the text "a-b" matches a and nothing else |
| CronField.StepFieldMatchesNothing | internal/maintenance/service.go:332-344 | a star followed by other text matches nothing |
| CronWindow.PrevCronFire | internal/maintenance/service.go:311-329 | the latest matching minute of the last 10080, an error exactly when there is none or the expression does not have five fields |
| CronWindow.ClockMeans | internal/maintenance/service.go:317-323 | minutes, days and weekdays of the model's clock: weekdays come in turn from Sunday as 0, and 27 April 2026 is a Monday |
| CronWindow.ListsMeanTheirTimes | internal/maintenance/service.go:306-329 | from text to time for all five fields: a list expression fires exactly in the listed minutes, hours, days of month, months and weekdays |
| CronWindow.OneTimeAWeek | internal/maintenance/service_test.go:172-207 | a window of fixed length once a week is open exactly from its start for its duration, both ends included, if it ends within the week of its day |
| CronWindow.CronCoverMeans | internal/maintenance/service.go:283-304 | covered exactly when some firing minute, less than a week ago, lies at most the duration back |
| CronWindow.CoversCron | internal/maintenance/service.go:283-304 | true exactly when some minute f of the last 10080 matches all fields and f <= t <= f + duration |
| CronWindow.SearchLimitIsHarmlessExactly | internal/maintenance/service.go:316-328 | the bounded search agrees with the unbounded schedule for every expression and time if and only if the duration is under a week |
| CronWindow.LongWindowIsMissed | internal/maintenance/service.go:316-328 | for every longer duration a monthly expression and a time that the code does not cover |
| CronWindow.LunarIsCivil | internal/maintenance/service.go:319-323 | the calendars that the theorems about months speak of exist |
| CronWindow.WeeklyExpressionsAlwaysFire | internal/maintenance/service.go:311-329 | with open day and month fields a fire time is found at every moment if and only if the other fields can be met at all |
| CronWindow.FieldsUndoJoin | internal/maintenance/service.go:312-315 | words joined by spaces are split back into exactly those words |
| CronWindow.WeeklyListsMeanTheirTimes | internal/maintenance/service.go:306-329 | the text of a weekly list expression fires exactly in the listed minutes, hours and weekdays |
| CronWindow.CoversWeekly | internal/maintenance/service.go:214-247 | looks at the window of the current day only, from the start time for the duration, both ends included; a bad start time is an error exactly on a listed weekday |
| CronWindow.WeeklyIsRightExactly | internal/maintenance/service.go:226-246 | today's window decides like the whole schedule at every moment if and only if windows end before midnight, no day is listed, or cover is round the clock |
| CronWindow.MonthlyIsRightExactly | internal/maintenance/service.go:251-278 | the same for a monthly window: if and only if it ends before midnight or its day never comes |
| CronWindow.WindowCoversTime | internal/maintenance/service.go:190-304 | true exactly when the window's schedule covers the time, an error exactly when the schedule cannot be evaluated then |
| CronWindow.IsInMaintenance | internal/maintenance/service.go:167-185 | the first covering window, none exactly when none covers; a window that cannot be evaluated hides no later one |
| ConfidenceTracker.UniqueStrings | internal/gfw/confidence.go:50-60 | the distinct entries in first-seen order |
| ConfidenceTracker.UniqueFacts | internal/gfw/confidence.go:50-60 | the result has no repetition and the same members |
| ConfidenceTracker.UniqueGrows | internal/gfw/confidence.go:50-60 | more input never changes the entries before it, so they stand in first-seen order |
| ConfidenceTracker.MemoryTracker.Record | internal/gfw/confidence.go:174-191 | replaces the state of the one domain by its next state and returns that state's score |
| ConfidenceTracker.MemoryTracker.Reset | internal/gfw/confidence.go:199-204 | forgets the one domain |
| ConfidenceTracker.TrackerRefinesHistory | internal/gfw/confidence.go:121-144 | after any calls the count is the length of the last same-type streak since the domain was cleared, and the nodes are the distinct reporters since then in first-seen order |
| ConfidenceTracker.ScoreMeans | internal/gfw/confidence.go:26-47 | score at least 0.70 if and only if two nodes reported since the last clearing, 0.90 if and only if also the last three observations agree; otherwise 0.50 if the last two agree, 0.30 if anything was reported, and 0 |
| ConfidenceTracker.CorroborationLasts | internal/gfw/confidence.go:121-144 | once two nodes have reported the score stays at least 0.70 until the domain is cleared |
| ConfidenceTracker.OtherDomainsUntouched | internal/gfw/confidence.go:174-204 | calls about other domains leave a domain's state alone |
| TrackerRaces.RacesActLikeTheKeptCalls | internal/gfw/confidence.go:121-144 | overlapping calls for one domain leave exactly the state that the kept calls alone, in order, would leave |
| TrackerRaces.LostExactly | internal/gfw/confidence.go:121-144 | a write is lost if and only if it fell between the load and the save of a kept one |
| TrackerRaces.NothingLostExactly | internal/gfw/confidence.go:121-144 | nothing is lost if and only if every save was loaded after the write before it |
| TrackerRaces.RacyScoreMeans | internal/gfw/confidence.go:26-47 | under overlapping calls the score is about the kept observations alone |
| BlockingAnalyzer.Classify | internal/gfw/analyzer.go:121-193 | one exact condition on the two measurements for each verdict, in the order of the layers: dns, tcp_ip, tls_sni, http-failure, http-diff, none; accessible exactly without a verdict; consistency, confidence and node names |
| BlockingAnalyzer.VerdictMeans | internal/gfw/analyzer.go:121-427 | the same for the verdict as a function: what each layer looks for in the attempts, errors, answers and responses |
| BlockingAnalyzer.SniMeans | internal/gfw/analyzer.go:342-345 | an error speaks of a broken handshake exactly if one of the four words stands somewhere in it, in any case |
| BlockingAnalyzer.FirstErrorHas | internal/gfw/analyzer.go:314-328 | the error that decides is that of the first attempt that gave one |
| BlockingAnalyzer.CheckDns | internal/gfw/analyzer.go:207-251 | inconsistent exactly on a bogon, an injection, an error only the probe saw, or disjoint answers no single CDN explains |
| BlockingAnalyzer.CdnMatchAll | internal/gfw/analyzer.go:256-271 | non-empty exactly when both sides have answers and one CDN owns all of them, and then it is that CDN |
| BlockingAnalyzer.IpSetOverlap | internal/gfw/analyzer.go:429-440 | true exactly when some address is on both sides |
| BlockingAnalyzer.CheckTcp | internal/gfw/analyzer.go:277-302 | every probe attempt failed; some control attempt succeeded |
| BlockingAnalyzer.CheckTls | internal/gfw/analyzer.go:308-339 | every probe handshake failed and the first error points at SNI interference; some control handshake succeeded |
| BlockingAnalyzer.DisjointAnswersAreExcusedExactly | internal/gfw/analyzer.go:230-271 | disjoint answers with no other signal are consistent exactly when both sides are non-empty and every address maps to the CDN of the first control answer |
| BlockingAnalyzer.VerdictsThatNeedAControl | internal/gfw/analyzer.go:121-193 | without a control the verdict is accessible, dns or http-failure, and dns exactly on the probe's own flags or error |
| BlockingAnalyzer.OrderNeverMatters | internal/gfw/analyzer.go:207-302 | order and repetition of answers and TCP attempts never change the verdict |
| AlertEngine.Engine.Fire | internal/alert/engine.go:37-109 | nothing if the check fails or finds an unresolved alert of the key younger than an hour, or the insert fails; otherwise one unresolved alert with the event's fields and exactly one notification for each channel it reaches, marked notified only if something was sent; the error tells which statement failed |
| AlertEngine.Engine.FanOut | internal/alert/engine.go:79-101 | one notification per distinct sendable channel, counted |
| AlertEngine.Engine.ExistsActiveDedupKey | store/postgres/alert.go:74-90 | true exactly when an unresolved alert with the key is younger than the window |
| AlertEngine.Engine.Resolve | store/postgres/alert.go:113-123 | resolves every active alert with the key and touches nothing else |
| AlertEngine.Engine.ResolveById | store/postgres/alert.go:99-111 | resolves one active alert; not found exactly when it is not active |
| AlertEngine.FilterRules | store/postgres/alert.go:236-246 | exactly the rules whose minimum severity does not stand above the event's in the order INFO, P3, P2, P1, both known, and in order |
| AlertEngine.SerialRunsDeduplicate | internal/alert/engine.go:37-119 | in every serial run, two events with one non-empty key are an hour apart or the first was resolved before the second; an event notifies a channel at most once and is marked notified only if something was sent |
| AlertEngine.ActiveAlertsOfAKeyAreAnHourApart | internal/alert/engine.go:18-53 | two alerts of one key that are both active are at least an hour apart |
| AlertEngine.InsertKeepsSpacingExactly | internal/alert/engine.go:38-57 | an insert keeps the spacing if and only if no live alert with its key is younger than the window at the moment of the insert, whatever the earlier check saw |
| AlertEngine.OverlappingFiresBreakDedup | internal/alert/engine.go:38-57 | two calls with one key that both pass the check before either inserts break the spacing whenever the inserts are less than an hour apart |
| AlertEngine.InterleavingsDeduplicateExactly | internal/alert/engine.go:37-119 | under every interleaving of calls, with check and insert as separate steps, the events of a key are an hour apart or separated by a resolve if and only if no alert of the key slipped in between some call's check and its insert and was live and less than an hour old then |
| AlertEngine.DuplicateExactlyWhenSlippedIn | internal/alert/engine.go:38-57 | an insert meets a live young alert of its key if and only if one slipped in after its check |
| AlertEngine.AlertLives | store/postgres/alert.go:99-123 | along an interleaving an alert keeps its key and creation time and is live exactly until a step resolves its key or its id |
| VerdictPipeline.VerdictService.AnalyzeAndStore | internal/gfw/verdict_service.go:57-124 | tracker, alerts and domain rows end as the pipeline step says, and the verdict carries the recorded blocking type and its score |
| VerdictPipeline.BlockingAlertService.EvaluateAndAlert | internal/gfw/blocking_alert.go:58-142 | writes the domain's blocking columns, then resolves an accessible or weak verdict and fires a strong one |
| VerdictPipeline.ThresholdsMean | internal/gfw/blocking_alert.go:150-169 | "blocked" and P1 exactly from 0.90, "possibly_blocked" and P2 exactly from 0.70 to there, P3 exactly from 0.30 to there |
| VerdictPipeline.ColumnsMean | internal/gfw/blocking_alert.go:58-84 | over every run, the columns a stored analysis writes: "blocked" exactly with two reporters and three observations alike, "possibly_blocked" exactly with two reporters otherwise, with time and confidence; empty otherwise, and other domains untouched |
| VerdictPipeline.EveryBlockingAlertIsJustified | internal/gfw/verdict_service.go:86-121 | over every sequence of analyses, expiries and outside alert traffic, a blocking alert exists only if two distinct nodes reported blocking since the tracker last recorded an accessible verdict or lost its state; it is P1 exactly when the last three recorded observations also had the current type |
| VerdictEvidence.EveryBlockingAlertIsBacked | internal/gfw/verdict_service.go:86-121 | the same since the last accessible analysis itself, in every run whose accessible analyses were recorded or had nothing to forget |
| VerdictEvidence.StaleReportCompletesAnAlert | internal/gfw/verdict_service.go:86-93 | why the condition is needed: a report, an accessible verdict whose tracker call fails, a report by another node, and an alert is inserted with one reporter since the verdict |
| VerdictEvidence.UnbackedAlertsExactly | internal/gfw/verdict_service.go:86-121 | a domain's next alert can lack two reporters since its last accessible analysis if and only if the tracker holds a report from before it by a node that has not reported since, and no two nodes have |
| VerdictEvidence.LeftoverExactly | internal/gfw/verdict_service.go:86-93 | an accessible analysis leaves an older report in the tracker if and only if its tracker call failed while one was remembered |
| VerdictEvidence.MemorySplits | internal/gfw/confidence.go:121-144 | what the tracker remembers is what the last accessible analysis left over followed by the recorded reports since |
| VerdictPipeline.FiresOrResolvesExactly | internal/gfw/blocking_alert.go:58-142 | a stored analysis goes to the fire branch if and only if it was recorded, says blocked and its confidence is at least 0.70; otherwise it resolves |
| VerdictPipeline.AnalysisFiresExactly | internal/gfw/blocking_alert.go:58-142 | an analysis inserts an alert if and only if it was recorded and stored, says blocked, two nodes have reported, and the engine does not suppress it |
| VerdictPipeline.BlockingAlertsAreSpaced | internal/gfw/blocking_alert.go:59-61 | two blocking alerts of one domain are an hour apart or separated by a resolve |
| VerdictPipeline.AccessibleVerdictClearsHistory | internal/gfw/verdict_service.go:86-93 | an accessible verdict empties the domain's history exactly when the tracker call succeeds |
| VerdictPipeline.AccessibleVerdictResolves | internal/gfw/blocking_alert.go:86-103 | a stored accessible verdict leaves no live alert and clears the domain's columns |
| VerdictPipeline.TrackerFailureResolves | internal/gfw/verdict_service.go:86-93 | after a failed tracker call a stored verdict leaves no live alert, whatever it says |
| VerdictPipeline.BorderlineNeverFires | internal/gfw/blocking_alert.go:150-169 | no run ever holds a blocking alert other than P1 or P2 |
| VerdictPipeline.ProbesAloneReachP1 | internal/gfw/analyzer.go:116-129 | two probes without any control measurement raise a P1 alert |
| VerdictEvidence.UncontrolledConfidenceExactly | internal/gfw/analyzer.go:116-129 | a recorded blocking analysis without a control stays within 0.30 if and only if no other node has reported since the tracker was cleared and the last report was of another type |
| VerdictPipeline.KeysAreInjective | internal/gfw/blocking_alert.go:59-59 | different domains have different dedup keys |
| AgentSnapshot.Agent.SnapshotPrevious | cmd/agent/safety.go:97-120 | succeeds exactly when no node of an older snapshot has the other kind; then the live tree is laid over the release's snapshot and nothing else changed |
| AgentSnapshot.Agent.RestoreFromSnapshot | cmd/agent/handler.go:315-340 | nothing is deleted and no node changes its kind; unless some snapshot holds a `.previous` path, it succeeds exactly when the snapshot exists and no live node has the other kind, then lays the snapshot over the live tree, and never alters `.previous` |
| AgentSnapshot.Agent.CopyFile | cmd/agent/safety.go:122-137 | copies the contents exactly when the parent is a directory and the target is not one |
| AgentSnapshot.Agent.WriteArtifactFiles | cmd/agent/handler.go:202-226 | succeeds exactly if no destination is the root, stands in place of a directory or below a file, and none lies below another; then every file routed to the deploy tree is in place unless a later one has its destination; only destinations and the directories above them change, and nothing is deleted |
| AgentSnapshot.Agent.WriteFile | cmd/agent/handler.go:217-225 | writes one file, with the directories above it, exactly if it is not the root, nor in place of a directory, nor below a file, and changes nothing otherwise |
| AgentSnapshot.RoutesMean | cmd/agent/handler.go:205-216 | what lies below "html" goes to the root of the deploy tree, what lies below "nginx" does not go there, and the rest keeps its place |
| AgentSnapshot.Agent.HandleTask | cmd/agent/handler.go:38-170 | succeeds exactly with a verified artifact whose files can be written, the configuration test and the later phases; its files are then in place; the snapshot it takes is of the tree that was already written, exactly when it fits, and a snapshot that does not fit does not fail the deploy; with files outside `.previous` the older snapshots are intact |
| AgentSnapshot.Agent.HandleRollback | cmd/agent/handler.go:236-311 | no target leaves the tree alone; unless some snapshot holds a `.previous` path, it succeeds exactly with a target, a snapshot that fits and passing later phases, and the tree is restored as soon as the snapshot fits |
| AgentSnapshot.Walk | cmd/agent/safety.go:103-119 | visits exactly the given entries, directories before what they hold |
| AgentSnapshot.RestoreBringsBackTheSnapshot | cmd/agent/handler.go:315-340 | whatever happens outside `.previous` and to other releases in between, a restore brings every path of the latest snapshot back to its contents then, leaves paths absent from the snapshot alone, and repeated snapshots overlay |
| AgentSnapshot.SnapshotStays | cmd/agent/safety.go:97-120 | only snapshotting a release alters its snapshot, in any history |
| AgentSnapshot.SnapshotsNeverNest | cmd/agent/safety.go:108-114 | in any history no snapshot contains a `.previous` path |
| AgentSnapshot.RollbackReproducesTheDeploy | cmd/agent/handler.go:94-127 | rolling back the release just deployed leaves the live tree as deployed if and only if everything an earlier snapshot of that release held is still live |
| AgentSnapshot.RollbackUndoesOnlyNoOps | cmd/agent/handler.go:94-127 | the rollback restores the live state before the deploy if and only if the deploy changed nothing and everything an earlier snapshot of the release held is live |
| DnsTemplate.PrintUndoesScan | internal/dnstemplate/service.go:25-26 | scanning into literals and placeholders and printing gives the text back |
| DnsTemplate.ScanUndoesPrint | internal/dnstemplate/service.go:25-26 | printing and scanning gives the segments back if and only if they are canonical |
| DnsTemplate.ScanFindsEveryPlaceholder | internal/dnstemplate/service.go:172-183 | a name is scanned if and only if its placeholder occurs anywhere in the text |
| DnsTemplate.LeadingIsPrefix | internal/dnstemplate/service.go:25-26 | a match starts a text exactly when the text begins with two braces, a letter or underscore, letters, digits and underscores, and two braces |
| DnsTemplate.ExtractVariables | internal/dnstemplate/service.go:172-183 | the keys are exactly the names scanned in record names and contents, each with an empty default |
| DnsTemplate.SubstituteOwnPlaceholders | internal/dnstemplate/service.go:213-221 | substituting each variable by its own placeholder is the identity |
| DnsTemplate.SubstituteLooksAtScannedNames | internal/dnstemplate/service.go:213-221 | the result depends only on the scanned variables |
| DnsTemplate.SubstitutePlaceholder | internal/dnstemplate/service.go:213-221 | a placeholder gives way to its value, or stays if it has none, and the rest is substituted on its own |
| DnsTemplate.SubstituteText | internal/dnstemplate/service.go:213-221 | a character that begins no placeholder is kept |
| DnsTemplate.SubstituteEmpty | internal/dnstemplate/service.go:213-221 | an empty text stays empty |
| DnsTemplate.StaysCleanExactly | internal/dnstemplate/service.go:213-221 | values without placeholders leave no placeholder in the result, whatever they are, if and only if the text has no part of a placeholder next to a variable, nor one that spans two variables |
| DnsTemplate.PlaceholderComesBack | internal/dnstemplate/service.go:213-221 | why the condition is needed: two braces, the placeholder of a and two braces, with "b" for a, give the placeholder of b |
| DnsTemplate.RenderRecords | internal/dnstemplate/service.go:186-210 | succeeds exactly when every scanned name is supplied, keeps record order, and otherwise lists exactly the missing names; each record has its two texts substituted, its type in capitals and its two numbers as they were; a field whose values are clean and whose text meets the condition of `DnsTemplate.StaysCleanExactly` holds no placeholder |
| DnsTemplate.RenderingLooksAtRequiredNames | internal/dnstemplate/service.go:186-210 | a rendered record depends only on the variables the records use |
| DnsDrift.CompareRecords | internal/dnsquery/drift.go:159-227 | one entry for each normalised key of either side, in sorted order |
| DnsDrift.ComparisonLists | internal/dnsquery/drift.go:159-227 | each entry stands for its own key: it shows the last record of each side that has it, empty where there is none, and matches exactly if both sides have one |
| DnsDrift.KeysMean | internal/dnsquery/drift.go:229-233 | for types without a bar, two records share a key if and only if their types differ in nothing but case and so do their values apart from one trailing dot |
| DnsDrift.BarsCollide | internal/dnsquery/drift.go:229-233 | a bar in a type can make two different records share a key |
| DnsDrift.BuildIndex | internal/dnsquery/drift.go:161-171 | every key that occurs, mapped to the last record with it |
| DnsDrift.LastOfIsLast | internal/dnsquery/drift.go:161-171 | that record has the key and no later record does |
| DnsDrift.SortEntries | internal/dnsquery/drift.go:213-224 | a sorted permutation |
| DnsDrift.SortedMeans | internal/dnsquery/drift.go:213-224 | sorted means by type, equal types by name, equal names by the two values run together |
| DnsDrift.StrLessMeans | internal/dnsquery/drift.go:213-224 | strings are ordered by the first place where they differ, and before their extensions |
| DnsDrift.CheckDrift | internal/dnsquery/drift.go:64-150 | matches are the common keys, missing and extra the one-sided keys whose record has a value, drift the one-sided keys whose record value is empty; they add up to the key union, and the status is ok exactly when the key sets are equal |
| DnsDrift.ComparisonFacts | internal/dnsquery/drift.go:111-134 | entry counts of a comparison as sizes of key sets; every entry matches if and only if the key sets are equal |
| DnsDrift.AtMostTransitive | internal/dnsquery/drift.go:213-224 | the sort's order is transitive |
| CsvImport.ParseCsv | internal/importer/service.go:99-217 | the three file errors exactly, otherwise the valid rows and the row errors with their lines, in order |
| CsvMeaning.FileIsAcceptedExactly | internal/importer/service.go:99-131 | a file is accepted if and only if its header names the fqdn column and 1 to 5000 rows follow |
| CsvMeaning.CellMeans | internal/importer/service.go:112-141 | a cell is the trimmed text of the last column with its title, in any case, and empty if there is none or the row is too short |
| CsvMeaning.CellsMean | internal/importer/service.go:143-211 | which column each field of a record comes from |
| CsvMeaning.ReadingUndoesWriting | internal/importer/service.go:143-211 | a row that holds a record's fields as text parses to that record |
| CsvMeaning.RowIsAcceptedExactly | internal/importer/service.go:143-211 | a row is accepted if and only if its name is valid and each other cell is empty or readable as a date, a truth value or a positive 64-bit number |
| CsvMeaning.FirstWrongCellIsReported | internal/importer/service.go:143-201 | a rejected row is reported with its name and the first cell that is not in order |
| CsvMeaning.NameIsAcceptedExactly | internal/importer/service.go:221-243 | a name is valid if and only if it has at most 253 bytes, a dot, only letters, digits, dots and hyphens, and no empty label nor one with a hyphen at an end |
| CsvMeaning.BytesOfAscii | internal/importer/service.go:221-224 | a text has one byte for each character exactly when it is ASCII |
| CsvMeaning.TrimLeaves | internal/importer/service.go:135-141 | trimming removes exactly the white space at the ends |
| CsvMeaning.ErrorsNameTheirLines | internal/importer/service.go:143-155 | each row error names the line of its row, counting the header as line 1, and what the row is rejected for |
| CsvMeaning.RejectedAtExactly | internal/importer/service.go:143-155 | exactly the rows that do not parse have an error |
| CsvImport.RowsAreConserved | internal/importer/service.go:143-214 | valid rows plus row errors equal the data rows |
| CsvImport.Importer.CreateJob | internal/importer/service.go:257-305 | succeeds exactly if the file is accepted and both steps work; the stored total is the number of data rows of the stored file; a failed enqueue leaves the job failed |
| CsvImport.Importer.ImportRows | internal/importer/service.go:363-413 | the counters count the rows by outcome, the registrations grow by exactly the imported names, and progress never exceeds the stored total |
| CsvImport.Importer.ProcessImport | internal/importer/service.go:325-438 | imported plus skipped plus failed equals the total stored at creation for every registration outcome; no name is ever registered twice; status, errors, registrations and taken names in every case |
| CsvImport.RegisteredOnce | internal/importer/service.go:363-413 | a run registers each name once and only names that were free |
| CsvImport.RegisteredMeansImported | internal/importer/service.go:363-413 | a name ends up registered exactly when some row with it was imported |
| CsvMeaning.OutcomesMean | internal/importer/service.go:363-408 | a row is skipped exactly if the query returned its name, and imported exactly if the name was free, registration does not refuse it and no earlier row with it was imported |
| CsvMeaning.CountIs | internal/importer/service.go:363-408 | each counter is the number of rows with its outcome |
| CsvImport.ReportedLineIsRightExactly | internal/importer/service.go:363-402 | the reported line of a valid row is its own line if and only if no invalid row precedes it |

## Left out

- HTTP handlers, routing, configuration, wiring, authentication and CRUD services: they pass requests on to the services and the store.
- Agent and domain lifecycles: smaller instances of the same compare-and-swap.
- Probes, certificates, live DNS lookups, provider synchronisation, artifact hashing and signing: network and foreign library behaviour.
- Release engine: a worker killed by its timeout and a message delivered twice are not modelled; neither are rollback records, timestamps, domain task status and log output.
- Release engine: the writes whose errors the code ignores (counters, shard status) are taken to succeed; failing reads, enqueues, inserts and swaps are modelled.
- Release engine: only the ten listed states exist, since every write goes through the transition graph.
- CronWindow.WindowCoversTime: times are UTC, so time zones and daylight saving are not modelled; "HH:MM" texts and the stored JSON are taken as already parsed, and 64-bit overflow of durations is not modelled.
- BlockingAnalyzer.Classify: the evidence detail copied into the verdict is not modelled, lower-casing covers ASCII letters, and body-length ratios are compared by cross-multiplication instead of floating point.
- ConfidenceTracker.MemoryTracker.Record: scores are integer percentages; the Redis variant is the same step with expiry as an extra event, and a failed call changes nothing.
- AgentSnapshot.Agent.HandleTask: file modes, links, files routed to the nginx directory (which no snapshot covers) and the phase reports are not modelled; paths are component lists without "..", and a release id is one path component.
- AgentSnapshot.Agent.WriteArtifactFiles: reading the staged files and writing those routed elsewhere are taken to work.
- AgentSnapshot.Agent.RestoreFromSnapshot: for a snapshot that holds a `.previous` path only the shape of the tree is promised, because the copy then changes the tree it is walking and the outcome depends on the order of the walk; no history whose written files lie outside `.previous` gets there.
- AgentSnapshot.Agent.HandleRollback: has the same exception.
- DnsTemplate.RenderRecords: upper-casing of the record type covers ASCII letters.
- DnsDrift.CompareRecords: case folding covers ASCII letters; names and TTLs are not compared, as in the code.
- CsvImport.ParseCsv: starts from split fields, so quoting, blank lines and multi-line fields are not modelled; dates, letters and case folding are given by a library value, and some error texts are shortened.
