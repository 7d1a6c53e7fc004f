# Verification of ElastiSim's scheduling core

ElastiSim simulates a batch system: jobs are submitted to a queue, a scheduler gives them compute
nodes, and malleable jobs grow and shrink while they run. The research extension adds recurring
shutdown windows: before a window, nodes are drained and powered off, and malleable jobs make room.
This project models that core in Dafny and proves what it promises: no node is handed out twice, no
powered-down node is in use, reservations are consistent, a job runs on fewer nodes than it needs only
for a reason that is on record, and the accounting around a run balances. It also proves what must happen:
whose reservation is redeemed, who is backfilled, who is asked for nodes first, how far jobs grow, which
nodes go down and come back, and that a submitted job for which enough nodes are free runs.

`dafny verify dfyconfig.toml` checks everything.

## How it is built

Time is a `real`; every message to the scheduler is one atomic step. Nodes and jobs are numbers: the
place in the node list and in the job queue. `xbt_die` is the sticky flag `died` of a node or a job, set
wherever the modelled code would call it, in planning too: for a runtime on no node, and for the remaining
runtime of a job without a prediction. It is proved never to be set in a reachable state (`NodesAreExclusive`,
`PlanningNeverFails`), although it could be (`EmptyReservationsFail`); the methods that plan demand what
the check asks for, so that every one of their call sites proves it.

Each stateful component exists twice. The values and functions say what an operation does
(`ClusterState`, `AgreementMaps`, `ShutdownPolicy`, `SchedulingRound`, `Scheduler`); the theorems are
about them. The classes hold the fields that the C++ objects hold and run the loops that the C++ code
runs (`ClusterObjects`, `Cluster`, `AgreementHandlers`, `ShutdownManagers`, `MalleableScheduling`,
`SchedulerActors`); each of their methods is proved to do to the objects exactly what the function does
to the values. The two ends meet in `SchedulerActors.SchedulerActor.ProcessMessages`: the objects end in
the world `Run` computes, for every possible sequence of messages, so that every theorem of `Runs` and
`PoweredFloorRuns` about reachable worlds holds of the objects.

- `Sequences`: duplicate-free sequences, filters, stable sort.
- `ShutdownCalendar`, `ShutdownPolicy`, `PowerSafety`, `ShutdownManagers`: daily windows, admission,
  the node power state machine, malleable jobs making room.
- `RuntimePrediction`: speedup, remaining work, progress updates.
- `ClusterState`, `ClusterInvariant`, `ClusterObjects`, `Cluster`: nodes, jobs, the scheduler's handlers,
  the cache of free nodes, the node allocator.
- `AgreementMaps`, `AgreementHandlers`: the three agreement handlers.
- `SchedulingRound`, `RoundInvariant`, `RoundProperties`, `HeadDelays`, `MalleableScheduling`: a scheduling
  round of the strategies MinAgreement, MinStealAgreement, MinCommonPool and PrefStealAgreement.
- `Scheduler`, `Runs`, `SchedulerActors`: messages, reachable worlds, the actor.
- Over whole runs: `PoweredFloorRuns` (nodes that stay powered), `PendingTransitions` (nodes on their way up
  or down), `ServedWork` (remaining work), `CorePools` (admission inserts nothing), `ReservationHistory`
  (why jobs run short), `ReservedStarts` (when a reservation is redeemed).
- What has to happen, told without the functions that do it: `ResolvingProgress` (reservations),
  `BackfillProgress` (starts), `DonorProgress` (donors), `ExpansionProgress` (growth), `PowerProgress` (node
  states), `TargetLaws` (targeted nodes, malleable jobs making room), `MessageEffects` (messages).
- `ExpansionWitness`, `RefusalWitness`: two runs, message by message, in which something surprising happens.
- `WorkloadExecution`: the application loop. `CommunicationMatrix`: traffic matrices.
- `SampledEnergy`, `SolarEnergy`, `ShutdownReport`, `EnergyBalance`: the evaluation of a run.

Main invariants: `ClusterInvariant.Inv` (a node's running and expected jobs are exactly the jobs that
execute on it and wait for it; assigned lists are duplicate-free; nobody shares a node; powered-down nodes
are idle; a scheduled transition only leads from shutting down to off or from booting to free),
`AgreementMaps.TwoWay` and `AgreementMaps.Pooled` (the handlers' maps), `RoundInvariant.RoundOk` (what
every step of a round keeps) and `RoundInvariant.Settled` (what holds between rounds).

## What the code does that one might not expect

The model follows the code in all of these.

- After a job was erased from the queue, the backfilling index still moves on, so the next job is skipped.
- The test whether a job delays the head of the queue compares an absolute start time with a runtime.
- Draining lead times beyond one day miss instants before a window (`DrainLeadTimeMeaning` says exactly
  when the test means what its name says, `LongLeadMiss` gives the instant that is missed).
- Expansion ignores the target pool. Then the jobs a targeted node accepts stay clear of all windows exactly
  if none fits at all, or no window is open and the acceptance margin is safe (`IgnoringThePoolIsSoundExactlyIf`);
  without a positive margin, exactly if no window is open. `ExpansionReachesIntoWindow` is a run in which
  one is: a node whose draining timed out is given to a growing job when the window opens.
- A transition scheduled at clock 0 with delay 0 never fires, because the stored time must be positive
  (`FiresExactlyIfPositive`). Every other node that shuts down or boots has a transition that can fire
  (`TransitionsArePending`); in the run of `TransitionAtZeroNeverFires` a node shuts down for ever.
- Under an active policy a job started from a reservation can get fewer nodes than its minimum: exactly if
  one of the nodes selected for it refused it (`InvocationsStartAsAsked`, `JobsBelowMinimumWereRefused`).
  `RefusalStartsBelowMinimum` is such a run.
- `std::map::operator[]` inserts `false` for a node that was never listed; the model does so. Admission
  does so for core-pool flags. Before the pools are assigned that would lose the core pool
  (`EarlyQuestionLosesTheCore`), but no invocation asks that early (`AdmissionInsertsNothing`).
- With scheduling at scheduling points, an invocation that comes too soon after the last one does nothing,
  so the job that asked for it is not reconfigured either.
- Rank 0 reports RUNNING whatever state the job is in by then, so it can overwrite a pending
  reconfiguration.
- A phase without iterations stalls its job (`RunJob` completes exactly if every phase has some).
- `findFreeNodes` asked for zero nodes returns one if there is any (`SearchIsExact`).
- Matrices for GATHER, SCATTER and MASTER_WORKER do not add up to the requested size
  (`ConservingPatterns` says exactly which patterns do).
- The order in which the donors of a round are sorted differs: MinCommonPool and PrefStealAgreement
  sort anew for every pending job.
- The minimum strategies cap the target of an expansion by the number of free nodes, the preferring
  strategy does not; `CapIsHarmless` shows that this makes no difference.

## Model

| member | source | states |
|---|---|---|
| ShutdownCalendar.NextShutdownIsLeastLaterStart | elastisim/src/system/ShutdownPolicyManager.cpp:722-738 | the next shutdown time is the least instant at the start hour of any day that is later than now, and at most a day away |
| ShutdownCalendar.DrainLeadTimeMeaning | elastisim/src/system/ShutdownPolicyManager.cpp:704-720 | the lead-time test means "the next start is at most the lead time away" at every instant if and only if the lead time is at most a day (or the window starts at midnight and the lead is whole days) |
| ShutdownCalendar.DrainLeadTimeAt | elastisim/src/system/ShutdownPolicyManager.cpp:704-720 | the same equivalence at one instant, overnight windows included |
| ShutdownCalendar.LongLeadMiss | elastisim/src/system/ShutdownPolicyManager.cpp:704-720 | for every other lead time, an instant at which the test fails although the start is that close |
| ShutdownCalendar.WindowEnteredOnlyAtStart | elastisim/src/system/ShutdownPolicyManager.cpp:691-702 | outside a window, no instant before the next start is inside it |
| ShutdownCalendar.InWindowAtStart | elastisim/src/system/ShutdownPolicyManager.cpp:691-702 | the next start itself is inside the window |
| ShutdownPolicy.AcceptanceAntitoneInRuntime | elastisim/src/system/ShutdownPolicyManager.cpp:604-688 | a node that accepts a job accepts any shorter one |
| ShutdownPolicy.AvoidsUpToNextStart | elastisim/src/system/ShutdownPolicyManager.cpp:691-738 | an interval meets no occurrence of a window exactly if it begins outside and ends by the next start |
| ShutdownPolicy.AdmissionIsSound | elastisim/src/system/ShutdownPolicyManager.cpp:624-654 | with the target pool respected, an accepted targeted node's interval meets no shutdown window, overnight ones included |
| ShutdownPolicy.AdmissionIsExact | elastisim/src/system/ShutdownPolicyManager.cpp:604-688 | without an acceptance margin, a powered targeted node is accepted if and only if the interval meets no window |
| ShutdownPolicy.UntargetedAdmissionIsExact | elastisim/src/system/ShutdownPolicyManager.cpp:604-688 | with a lead time of at most a day, a powered node outside the targets and the core accepts a job if and only if, margin included, it ends before every start that is at most the lead time away |
| ShutdownPolicy.IgnoringThePoolIsSoundExactlyIf | elastisim/src/system/ShutdownPolicyManager.cpp:624-687 | with the target pool ignored, every job that a powered targeted node accepts now runs clear of all windows if and only if no job fits at all, or no window is open and the acceptance margin is not positive or cut short by a window close enough |
| ShutdownPolicy.IgnoringThePoolMeetsOpenWindowsOnly | elastisim/src/system/ShutdownPolicyManager.cpp:624-687 | without a positive margin, a job so accepted runs clear of all windows if and only if none is open now |
| ExpansionWitness.ExpansionReachesIntoWindow | elastisim/src/scheduling/malleability/MalleabilityHelper.cpp:163-216 | a possible run after which a job has been given a targeted node while a window is open |
| ShutdownManagers.ShutdownPolicyManager.CanNodeAcceptJob | elastisim/src/system/ShutdownPolicyManager.cpp:604-688 | the admission decision on the manager's maps; at most a missing core-pool entry is inserted, and nothing changes if the entry is there or is not read |
| CorePools.PrepareCovers | elastisim/src/system/Scheduler.cpp:96-119 | when the strategy is asked, every core-pool flag that admission reads is there |
| CorePools.AdmissionInsertsNothing | elastisim/src/system/ShutdownPolicyManager.cpp:604-622 | in every reachable world, once an invocation is prepared, asking a node inserts no core-pool flag |
| CorePools.EarlyQuestionLosesTheCore | elastisim/src/system/ShutdownPolicyManager.cpp:217-224 | asking before the pools are assigned changes which nodes become core nodes if and only if they were still to be assigned and the core is not empty |
| ShutdownManagers.ShutdownPolicyManager.MeetsDeadlines | elastisim/src/system/ShutdownPolicyManager.cpp:624-687 | the three deadline tests over all windows: target pool, drained or targeted with margin, lead time with margin |
| ShutdownManagers.ShutdownPolicyManager.AssignNodePools | elastisim/src/system/ShutdownPolicyManager.cpp:399-408 | the core pool is the computed prefix of the node list |
| ShutdownManagers.ShutdownPolicyManager.AssignShutdownTargets | elastisim/src/system/ShutdownPolicyManager.cpp:410-426 | the targets are those of the first window within its draining lead time; without one they stay as they were |
| ShutdownManagers.ShutdownPolicyManager.AssignShutdownTargetsForFraction | elastisim/src/system/ShutdownPolicyManager.cpp:428-436 | exactly the prefix of floor(n * (1 - fraction)) nodes is targeted |
| ShutdownManagers.ShutdownPolicyManager.Retarget | elastisim/src/system/ShutdownPolicyManager.cpp:217-268 | simple targets change only when another window comes into reach, pool targets only when another window is next or none were set; nothing else changes |
| ShutdownManagers.ShutdownPolicyManager.StepNode | elastisim/src/system/ShutdownPolicyManager.cpp:438-521 | one node in any state: drained when a window is near, shut down when one is open, free again when draining took too long, booted when off and some window is neither open nor near; its drain time and flags follow (the function that PowerProgress.UpdateObeysLaw is about) |
| ShutdownManagers.ShutdownPolicyManager.ShouldDrainNode | elastisim/src/system/ShutdownPolicyManager.cpp:523-548 | an idle node is drained within a lead time if it is targeted (simple strategy) or not in the core pool (flexible); the map entry read is inserted if missing |
| ShutdownManagers.ShutdownPolicyManager.UpdateNodeStates | elastisim/src/system/ShutdownPolicyManager.cpp:438-521 | every node makes its step in list order, each seeing the maps the earlier ones left; no job changes, a valid cache stays right |
| ShutdownManagers.ShutdownPolicyManager.Update | elastisim/src/system/ShutdownPolicyManager.cpp:217-268 | nothing without an active policy, else retargeting and then the walk over the nodes |
| ShutdownManagers.ShutdownPolicyManager.ShrinkWindow | elastisim/src/system/ShutdownPolicyManager.cpp:280-305 | the first window that is active or within the shrinking lead time |
| ShutdownManagers.ShutdownPolicyManager.ShrinkAll | elastisim/src/system/ShutdownPolicyManager.cpp:354-379 | in priority order every malleable job gives up exactly its targeted nodes above its minimum; reports whether any did |
| ShutdownManagers.ShutdownPolicyManager.ApplyMalleableShutdownPolicy | elastisim/src/system/ShutdownPolicyManager.cpp:270-397 | malleable jobs make room in an open window or shortly before one; nodes are stepped again only if some job did and the window is open |
| PowerProgress.UpdateObeysLaw | elastisim/src/system/ShutdownPolicyManager.cpp:438-521 | while the policy is active, an update treats every node by the law of its state, with the targets of this update: a free targeted one goes down in an open window, others drain within a lead time; a draining one is freed on timeout, else goes down in an open window, else may be cleared; one that is off boots exactly if some window is neither open nor near |
| PowerProgress.InvocationShutsDownDraining | elastisim/src/system/ShutdownPolicyManager.cpp:473-488 | while a window is open, after an invocation every node that was draining and has not timed out is shutting down, to be off after the configured delay, or off already |
| PowerProgress.InvocationShutsDownTargeted | elastisim/src/system/ShutdownPolicyManager.cpp:445-464 | so is every node that was free and targeted |
| PowerProgress.InvocationBootsExactlyIf | elastisim/src/system/ShutdownPolicyManager.cpp:509-514 | a node that was off boots, to be free after the configured delay, exactly if some window is neither open nor near; otherwise it is as it was |
| PowerProgress.DueShutdownFinishes | elastisim/src/system/Scheduler.cpp:113-119 | with any policy, a node whose shutdown is due is off after an invocation |
| PowerProgress.DueBootFinishes | elastisim/src/system/Scheduler.cpp:113-119 | a node that boots is free when the strategy is asked if that is due, and unchanged otherwise |
| TargetLaws.NextWindowStartsNext | elastisim/src/system/ShutdownPolicyManager.cpp:249-258 | the window chosen for the target pool has the earliest next start, and is the first of those |
| TargetLaws.TransitionRetargets | elastisim/src/system/ShutdownPolicyManager.cpp:226-247 | with the simple strategy, when another window comes into reach, exactly the first nodes are targeted, all but the fraction of the first window within its lead time; else targets stay |
| TargetLaws.PoolFollowsNextWindow | elastisim/src/system/ShutdownPolicyManager.cpp:249-265 | with the target pool, when another window starts next, exactly the first nodes are targeted, all but the fraction of that window |
| TargetLaws.TargetsStayOtherwise | elastisim/src/system/ShutdownPolicyManager.cpp:217-268 | without the pool, or while the same window starts next, the targets are those of the transition, and stay while the same window is in reach |
| TargetLaws.TargetedSurplusIsExact | elastisim/src/system/ShutdownPolicyManager.cpp:358-371 | a job gives up a node for a window exactly if the node is targeted and listed behind its minimum |
| TargetLaws.JobsMakeRoomExactlyIf | elastisim/src/system/ShutdownPolicyManager.cpp:270-379 | every running malleable job keeps exactly its untargeted nodes and the targeted ones within its minimum if some window is open or close enough; otherwise, and for all other jobs, nothing changes |
| TargetLaws.InvocationMakesRoom | elastisim/src/system/Scheduler.cpp:96-119 | that is what an invocation does before the strategy is asked, with the targets of its update |
| PowerSafety.UpdateKeepsInv | elastisim/src/system/ShutdownPolicyManager.cpp:438-521 | power management keeps the cluster invariant |
| PowerSafety.FiringKeepsInv | elastisim/src/system/Node.cpp:377-382 | firing all due transitions keeps the cluster invariant |
| PowerSafety.FiringIsSafe | elastisim/src/system/Node.cpp:372-382 | a transition that fires changes an idle node only: shutting down to off, booting to free |
| PowerSafety.TargetedSurplusIsSurplus | elastisim/src/system/ShutdownPolicyManager.cpp:358-371 | what a job gives up is targeted, assigned to it, duplicate-free and above its minimum |
| PowerSafety.ApplyMalleablePolicyKeepsInv | elastisim/src/system/ShutdownPolicyManager.cpp:270-397 | shrinking for a window keeps the cluster invariant; only running malleable jobs change, they only lose nodes, and each that does keeps its minimum |
| PowerSafety.RetargetKeepsBound | elastisim/src/system/ShutdownPolicyManager.cpp:217-268 | retargeting never targets a node at or beyond the largest target count of all windows |
| PowerSafety.PoweredFloor | elastisim/src/system/ShutdownPolicyManager.cpp:410-436 | if nodes from that count on are powered, at least n * the smallest target fraction are |
| PoweredFloorRuns.ReachableIsPowered | elastisim/src/system/ShutdownPolicyManager.cpp:217-548 | with the simple strategy and any windows, in every reachable world the nodes from the largest target count on are free, reserved or allocated, and at least n * minimum fraction nodes are powered |
| PendingTransitions.FiresExactlyIfPositive | elastisim/src/system/Node.cpp:372-382 | a scheduled transition fires from its time on, into the scheduled state, if and only if that time is positive |
| PendingTransitions.TransitionsArePending | elastisim/src/system/Node.cpp:372-382 | in every reachable world a node that shuts down or boots was told to be off, or free, after the configured delay, at an instant up to now; that can fire unless the instant was zero and there is no delay |
| PendingTransitions.TransitionAtZeroNeverFires | elastisim/src/system/Node.cpp:372-382 | a possible run after which a node shuts down and can never be off |
| RuntimePrediction.RuntimeAntitoneInNodes | elastisim/src/scheduling/utils/JobUtils.cpp:151-198 | more nodes never predict a longer runtime; on the base count the prediction is the job's own |
| RuntimePrediction.AmdahlsLaw | elastisim/src/scheduling/utils/JobUtils.cpp:151-198 | with the parallel share p and the base count b, the predicted runtime on n nodes is the job's own times ((1 - p) + p/n) / ((1 - p) + p/b), and the rate is the inverse of that factor |
| RuntimePrediction.RemainingByAmdahlsLaw | elastisim/src/scheduling/utils/JobUtils.cpp:208-231 | the remaining runtime on n nodes is the remaining work times the same factor |
| RuntimePrediction.RemainingWorkIsPathIndependent | elastisim/src/scheduling/utils/JobUtils.cpp:200-275 | after any interleaving of progress updates and reallocations the remaining work is max(0, work - sum of segment length * rate) |
| RuntimePrediction.PredictedEndIsConstant | elastisim/src/scheduling/utils/JobUtils.cpp:200-231 | between reallocations now + remaining runtime stays the same exactly until the work is used up, from then on the remaining runtime is zero |
| ServedWork.RemainingWorkIsRuntimeLessServed | elastisim/src/scheduling/utils/JobUtils.cpp:207-275 | in every reachable world an active job's remaining work is max(0, runtime - work its allocation history served), however often it was updated and reallocated |
| ClusterObjects.Node.AllocateJob | elastisim/src/system/Node.cpp:96-116 | the node runs the job and is allocated; a node that runs a job already ends the simulation |
| ClusterObjects.Node.ExpandJob | elastisim/src/system/Node.cpp:133-153 | the job is added and the node allocated |
| ClusterObjects.Node.CompleteJob | elastisim/src/system/Node.cpp:155-165 | the job leaves; the last one frees the node |
| ClusterObjects.Node.ExpectJob | elastisim/src/system/Node.cpp:305-321 | a free node becomes reserved; another job there ends the simulation |
| ClusterObjects.Node.RemoveExpectedJob | elastisim/src/system/Node.cpp:323-331 | a reserved node that nobody expects any more is free |
| ClusterObjects.Node.SetState | elastisim/src/system/Node.cpp:360-366 | every change of freeness invalidates the cache |
| ClusterObjects.Node.CheckScheduledTransition | elastisim/src/system/Node.cpp:377-382 | the target state is entered once its time has come, and the schedule cleared |
| ClusterObjects.Job.AssignNode | elastisim/src/software/Job.cpp:189-198 | the node is appended; a malleable job that is not pending is expected there |
| ClusterObjects.Job.SetState | elastisim/src/software/Job.cpp:77-118 | taking over assigned nodes, dropping expectations on them, clearing the prediction |
| ClusterObjects.Job.UpdateState | elastisim/src/software/Job.cpp:232-248 | a difference between assigned and executing nodes is pending, agreement ends that |
| ClusterObjects.Job.RemoveNodes | elastisim/src/software/Job.cpp:262-295 | the listed nodes leave the list one by one and stop expecting the job; going below the minimum ends the simulation |
| ClusterInvariant.StartKeepsInv | elastisim/src/scheduling/malleability/AgreementHandler.cpp:104-145 | starting a pending job on available nodes keeps the cluster invariant |
| ClusterInvariant.ExpandKeepsInv | elastisim/src/scheduling/malleability/MalleabilityHelper.cpp:163-216 | expanding an active job on available nodes keeps it |
| ClusterInvariant.ShrinkKeepsInv | elastisim/src/software/Job.cpp:262-295 | giving up assigned nodes above the minimum keeps it |
| ClusterInvariant.ForwardAllocationKeepsInv | elastisim/src/system/Scheduler.cpp:208-221 | forwarding an allocation keeps it: no node of the job ran anything |
| ClusterInvariant.ReconfigureKeepsInv | elastisim/src/system/Scheduler.cpp:223-265 | a reconfiguration keeps it: kept, new and released nodes all end up right |
| ClusterInvariant.ProcessedWorkloadKeepsInv | elastisim/src/system/Scheduler.cpp:175-190 | completing a job keeps it, nodes it still awaited included |
| ClusterInvariant.ApplicationRunningKeepsInv | elastisim/src/software/Application.cpp:195-200 | the late report that a job runs keeps it |
| ClusterInvariant.SubmitKeepsInv | elastisim/src/system/Scheduler.cpp:166-173 | a submission keeps it |
| ClusterInvariant.PowerKeepsInv | elastisim/src/system/ShutdownPolicyManager.cpp:438-521 | any steps of the power state machine keep it |
| Cluster.Cluster.ForwardJobAllocation | elastisim/src/system/Scheduler.cpp:208-221 | the job takes over, its nodes allocate it with ranks 0, 1, ... and a barrier for exactly them |
| Cluster.Cluster.HandleReconfiguration | elastisim/src/system/Scheduler.cpp:223-265 | new nodes are expanded onto, released ones complete the job, all current ones are ranked in list order under one barrier, the new ones again among themselves under a second |
| Cluster.Cluster.HandleSchedulingPoint | elastisim/src/system/Scheduler.cpp:270-283 | a pending reconfiguration is carried out, otherwise nothing changes |
| Cluster.Cluster.HandleProcessedWorkload | elastisim/src/system/Scheduler.cpp:175-190 | the job completes and leaves all nodes it ran on or awaited |
| Cluster.Cluster.HandleJobSubmit | elastisim/src/system/Scheduler.cpp:166-173 | the job is numbered, pending and last in the queue |
| Cluster.Cluster.HandleApplicationRunning | elastisim/src/software/Application.cpp:195-200 | rank 0 sets the state of an active job to running |
| Cluster.Cluster.StartJob | elastisim/src/scheduling/malleability/AgreementHandler.cpp:104-145 | a pending job is assigned nodes and waits for its allocation; nodes are not told |
| Cluster.Cluster.ExpandJobBy | elastisim/src/scheduling/malleability/MalleabilityHelper.cpp:191-209 | nodes are appended and expect the job, whose state is updated |
| Cluster.Cluster.ShrinkJobBy | elastisim/src/scheduling/malleability/MalleabilityHelper.cpp:137-151 | nodes that were selected from the job leave it and no longer expect it |
| Cluster.Cluster.CheckScheduledTransitions | elastisim/src/system/Scheduler.cpp:113-119 | every node checks its transition, and a valid cache stays right |
| Cluster.Cluster.UpdateRunningPredictions | elastisim/src/scheduling/utils/JobUtils.cpp:118-128 | exactly the running jobs' progress is updated |
| Cluster.Cluster.RebuildCache | elastisim/src/scheduling/utils/NodeCache.cpp:48-73 | the cache becomes valid and holds exactly the free nodes in list order |
| Cluster.Cluster.GetFreeNodes | elastisim/src/scheduling/utils/NodeCache.cpp:31-42 | whether cached or scanned, the free nodes in list order |
| Cluster.Cluster.FindFreeNodes | elastisim/src/scheduling/utils/NodeAllocator.cpp:25-56 | the first eligible, free, not excluded nodes from the cache, as many as required |
| Cluster.SearchIsExact | elastisim/src/scheduling/utils/NodeAllocator.cpp:25-56 | for every count, where zero counts as one and a negative one as too many: empty exactly if there are too few, else the first that many eligible ones |
| AgreementMaps.AddKeepsTwoWay | elastisim/src/scheduling/malleability/AgreementHandler.cpp:26-55 | reserving maps exactly the listed nodes to the job, and the two maps stay inverse |
| AgreementMaps.RemoveKeepsTwoWay | elastisim/src/scheduling/malleability/AgreementHandler.cpp:57-74 | removing frees exactly the job's nodes and touches no other job |
| AgreementMaps.SwapKeepsTwoWay | elastisim/src/scheduling/malleability/StealAgreementHandler.cpp:29-56 | a swap exchanges two nodes' owners and no reservation's size |
| AgreementMaps.SwapsPermuteOwners | elastisim/src/scheduling/malleability/StealAgreementHandler.cpp:58-98 | after the pairwise swaps partners belong to the job, its used nodes to the partners' owners, all others as before |
| AgreementMaps.StealSucceeds | elastisim/src/scheduling/malleability/StealAgreementHandler.cpp:58-98 | if a job reserved no more nodes than are free and reserved, its whole reservation is free afterwards; every reservation's size and the set of reserved nodes stay |
| AgreementMaps.StealPairsInOrder | elastisim/src/scheduling/malleability/StealAgreementHandler.cpp:58-98 | the job's used nodes in ascending order and the others' free nodes in list order change hands, one against the other as far as both go |
| AgreementMaps.StolenNodesSuffice | elastisim/src/scheduling/malleability/StealAgreementHandler.cpp:135-146 | the free nodes it owns are then as many as it reserved |
| AgreementMaps.AddKeepsPooled | elastisim/src/scheduling/malleability/AgreementHandler.cpp:26-55 | reserving unreserved nodes keeps the pool's count |
| AgreementMaps.SelectionIsSound | elastisim/src/scheduling/malleability/PoolAgreementHandler.cpp:74-103 | the selected nodes are distinct and free, enough exactly if enough are free, and unreserved ones only after all reserved ones |
| AgreementMaps.SelectionIsSplit | elastisim/src/scheduling/malleability/PoolAgreementHandler.cpp:74-103 | the selection is the first free reserved nodes in list order and then the first others, others only after all reserved ones |
| AgreementMaps.ConsumePoolTakesOneEach | elastisim/src/scheduling/malleability/PoolAgreementHandler.cpp:105-123 | every consumed node takes exactly one mapping out, so the pool never runs empty before the last |
| AgreementMaps.OneAssignedNodeConsumes | elastisim/src/scheduling/malleability/PoolAgreementHandler.cpp:105-123 | an assigned node takes out its own mapping if it has one, else the youngest mapping |
| AgreementMaps.FinalizeKeepsPooled | elastisim/src/scheduling/malleability/PoolAgreementHandler.cpp:105-123 | after finalization the counts agree again, and no other reservation changed size |
| AgreementMaps.OrderCountsNodes | elastisim/src/scheduling/malleability/AgreementHandler.h:40-47 | the order list is as long as there are reserved nodes |
| AgreementHandlers.AgreementHandler.AddAgreement | elastisim/src/scheduling/malleability/AgreementHandler.cpp:26-55 | the nodes are reserved for the job one by one, taken from whoever held them; the two-way invariant is kept |
| AgreementHandlers.AgreementHandler.RemoveAgreement | elastisim/src/scheduling/malleability/AgreementHandler.cpp:57-74 | the job and all its nodes leave both maps and the order list; the two-way invariant is kept |
| AgreementHandlers.AgreementHandler.RemoveNodeMapping | elastisim/src/scheduling/malleability/AgreementHandler.cpp:147-167 | the node leaves both maps (the job map only on request) and the order list |
| AgreementHandlers.AgreementHandler.PopAnyNodeMapping | elastisim/src/scheduling/malleability/AgreementHandler.cpp:169-176 | the youngest node is taken out and returned, or -1 |
| AgreementHandlers.AgreementHandler.SwapNodes | elastisim/src/scheduling/malleability/StealAgreementHandler.cpp:29-56 | two nodes of different jobs change places in both maps, otherwise nothing changes; the two-way invariant is kept |
| AgreementHandlers.AgreementHandler.StealAgreementNodes | elastisim/src/scheduling/malleability/StealAgreementHandler.cpp:58-98 | used reserved nodes are swapped for free ones of others; with enough of those the job's whole reservation is free, and no reservation changes size |
| AgreementHandlers.AgreementHandler.SelectNodesFromPool | elastisim/src/scheduling/malleability/PoolAgreementHandler.cpp:74-103 | reserved free nodes first, then any |
| AgreementHandlers.AgreementHandler.FinalizePoolAssignments | elastisim/src/scheduling/malleability/PoolAgreementHandler.cpp:105-123 | the job's entry and one mapping per assigned node are gone |
| RoundProperties.ResolveDirectKeeps | elastisim/src/scheduling/malleability/DirectAgreementHandler.cpp:41-71 | resolving one job keeps the round's invariant and every other job's reservation |
| RoundProperties.StealIsNeverShort | elastisim/src/scheduling/malleability/StealAgreementHandler.cpp:128-146 | after a steal there are never too few nodes to assign: that branch is dead |
| RoundProperties.ResolveStealKeeps | elastisim/src/scheduling/malleability/StealAgreementHandler.cpp:112-164 | resolving one job with stealing keeps the invariant and every other job's reservation |
| RoundProperties.ResolvePoolKeeps | elastisim/src/scheduling/malleability/PoolAgreementHandler.cpp:42-72 | resolving one job from the pool keeps the invariant and every other job's reservation |
| ResolvingProgress.DirectTurnExactly | elastisim/src/scheduling/malleability/DirectAgreementHandler.cpp:41-71 | with any policy: a job waits until all nodes it reserved are free; then it starts on exactly these if all accept it, else it loses its reservation |
| ResolvingProgress.StealTurnExactly | elastisim/src/scheduling/malleability/StealAgreementHandler.cpp:112-164 | with any policy: a job waits until as many reserved nodes are free as it has reserved; then its reservation comes to be as many free nodes, and it starts on exactly these if all accept it, else it loses its reservation |
| ResolvingProgress.PoolTurnExactly | elastisim/src/scheduling/malleability/PoolAgreementHandler.cpp:42-72 | with any policy: a job waits until as many free nodes accept it as it has reserved, and then starts on that many of them |
| ResolvingProgress.EarlyExitIsHarmless | elastisim/src/scheduling/malleability/StealAgreementHandler.cpp:100-168 | with any policy, resolving is a turn for every job that holds a reservation, in queue order: leaving the loop early skips only turns that would change nothing |
| ResolvingProgress.HoldersWaitOnlyForMore | elastisim/src/scheduling/malleability/StealAgreementHandler.cpp:100-168 | without a policy, after resolving, a job that still holds a reservation has reserved more nodes than are free (pool), more than reserved nodes are free (stealing), or one that is not free (direct) |
| ResolvingProgress.FirstRedeemableStarts | elastisim/src/scheduling/schedulers/MinStealAgreementScheduler.cpp:66-73 | without a policy, a round starts the first job in the queue whose reservation can be redeemed with what is free when the round begins |
| ResolvingProgress.InvocationRunsFirstRedeemable | elastisim/src/system/Scheduler.cpp:121-157 | without a policy, after an invocation that job runs |
| BackfillProgress.BackfillTurnExactly | elastisim/src/scheduling/schedulers/MinStealAgreementScheduler.cpp:135-186 | at its turn a job starts if and only if enough free nodes accept it (on its preferred number if the strategy tries that, else on its minimum) and it is the head or does not delay it; then it gets the first that accept it, otherwise nothing changes |
| BackfillProgress.BackfillWalks | elastisim/src/scheduling/schedulers/MinStealAgreementScheduler.cpp:130-188 | backfilling is one such turn after the other, the job behind a started one left out; ending early when nothing is free skips only turns that would change nothing |
| BackfillProgress.FirstStartableStarts | elastisim/src/scheduling/schedulers/MinStealAgreementScheduler.cpp:130-188 | the first job from any index on that can start does, on the first nodes that accept it |
| BackfillProgress.RoundStartsFirstStartable | elastisim/src/scheduling/schedulers/PrefStealAgreementScheduler.cpp:207-325 | so does the first job of a whole round that can start when backfilling begins, and it keeps these nodes to the end of the round |
| BackfillProgress.RoundStartsHead | elastisim/src/scheduling/schedulers/PrefStealAgreementScheduler.cpp:207-325 | in particular the head of the queue, if enough free nodes accept it |
| BackfillProgress.InvocationRunsHead | elastisim/src/system/Scheduler.cpp:121-157 | with any policy, when nothing is reserved, after an invocation the first pending job runs on the first nodes that accept it, if enough do |
| RoundProperties.BackfillOneKeeps | elastisim/src/scheduling/schedulers/MinStealAgreementScheduler.cpp:130-188 | one turn of backfilling keeps the invariant and the lists free of reservations |
| RoundProperties.JobsAreRanked | elastisim/src/scheduling/schedulers/MinStealAgreementScheduler.cpp:190-224 | the two rankings list every malleable job once, by descending and by ascending surplus over the ranking size (DonorProgress.RoundAsksInOrder and ExpansionProgress.RoundExpands say that a round goes by them) |
| RoundProperties.TiesKeepTheirOrder | elastisim/src/scheduling/schedulers/MinStealAgreementScheduler.cpp:190-224 | jobs with equal surplus keep their queue order in both rankings |
| RoundProperties.SelectionIsExact | elastisim/src/scheduling/malleability/MalleabilityHelper.cpp:75-103 | the donors give exactly the required count, and nothing exactly if their unreserved surplus is smaller |
| RoundProperties.PreferenceIsGentle | elastisim/src/scheduling/schedulers/PrefStealAgreementScheduler.cpp:327-352 | the preferred size if donors can give it and keep theirs, else the minimum, from donors that fall below their preferred size only if they must, else nothing |
| RoundProperties.PreferenceSparesDonors | elastisim/src/scheduling/schedulers/PrefStealAgreementScheduler.cpp:327-352 | as long as the donors can give the minimum out of what they hold beyond their preferred sizes, each keeps its preferred size; otherwise each keeps its minimum |
| RoundProperties.FilterIsGreatest | elastisim/src/scheduling/malleability/MalleabilityHelper.cpp:124-135 | the filter loop yields the greatest subset of the donor's nodes in which every node accepts the job on as many nodes as the subset has |
| RoundProperties.FilterDropsNothingExactlyIf | elastisim/src/scheduling/malleability/MalleabilityHelper.cpp:124-135 | the filter loop keeps every node if and only if every one accepts the job on all of them |
| RoundProperties.NoPolicyKeepsAll | elastisim/src/scheduling/malleability/MalleabilityHelper.cpp:124-135 | without a policy the filter drops nothing |
| RoundProperties.ApplyShrinkingKeeps | elastisim/src/scheduling/malleability/MalleabilityHelper.cpp:105-161 | turning donations into reservations keeps the invariant; all donated nodes are reserved if and only if no one refuses, without a policy always |
| DonorProgress.SurplusIsExact | elastisim/src/scheduling/malleability/MalleabilityHelper.cpp:218-254 | what a job can give is exactly the unreserved nodes that it lists behind the size it goes down to |
| DonorProgress.SurplusIsInOrder | elastisim/src/scheduling/malleability/MalleabilityHelper.cpp:218-254 | in the order in which it lists them |
| DonorProgress.SelectionIsInOrder | elastisim/src/scheduling/malleability/MalleabilityHelper.cpp:34-73 | the selection for a pending job asks for exactly the wanted number, every donor for the first nodes it can give, and none before all that hold more beyond the ranking size, or as much and stand earlier in the queue, gave everything; measured at the turn for MinCommonPool and PrefStealAgreement, when the phase begins for the others |
| DonorProgress.ShrinkingGives | elastisim/src/scheduling/malleability/MalleabilityHelper.cpp:105-161 | every donor loses exactly the accepted part of what it is asked for, these nodes become reserved for the pending job, and no other reservation changes |
| DonorProgress.PhaseAsksInOrder | elastisim/src/scheduling/schedulers/MinCommonPoolScheduler.cpp:191-215 | every job that waits has such a turn, in queue order |
| DonorProgress.RoundAsksInOrder | elastisim/src/scheduling/schedulers/PrefStealAgreementScheduler.cpp:327-353 | so it is in every round, and the reservations these turns lead to are those of the round |
| DonorProgress.MoreExcessGivesFirst | elastisim/src/scheduling/malleability/MalleabilityHelper.cpp:43-58 | without a policy, if a job gives anything in a turn, every job with more excess, or as much and earlier in the queue, gives all it can, and the pending job gets it |
| DonorProgress.FirstWaitingIsServed | elastisim/src/scheduling/schedulers/PrefStealAgreementScheduler.cpp:327-353 | without a policy, after a round the first job that waits holds a reservation of exactly the wanted size: preferred or minimum, as far as donors can give it, or none |
| RoundProperties.ExpansionIsLargest | elastisim/src/scheduling/malleability/MalleabilityHelper.cpp:172-187 | every added node accepts the job at its new size, and no larger expansion up to the target was possible |
| RoundProperties.CapIsHarmless | elastisim/src/scheduling/malleability/MalleabilityHelper.cpp:172-176 | the cap by the number of free nodes never changes which nodes a job is expanded by |
| ExpansionProgress.ExpandTurnExactly | elastisim/src/scheduling/malleability/MalleabilityHelper.cpp:163-216 | with any policy, at its turn a job grows to the largest size up to the limit for which enough free nodes accept it, by the first of them; otherwise nothing changes |
| ExpansionProgress.ExpansionExpands | elastisim/src/scheduling/schedulers/PrefStealAgreementScheduler.cpp:355-361 | expansion is a sweep of such turns over all malleable jobs, least surplus over the ranking size first, ties in queue order, up to the maximum; the preferring strategy makes one up to the preferred sizes before |
| ExpansionProgress.RoundExpands | elastisim/src/scheduling/schedulers/PrefStealAgreementScheduler.cpp:355-361 | so it is in every round |
| ExpansionProgress.SweepServesInOrder | elastisim/src/scheduling/schedulers/PrefStealAgreementScheduler.cpp:103-160 | without a policy, in a sweep a job grows only if all before it reached the limit |
| ExpansionProgress.RoundForgetsNone | elastisim/src/scheduling/schedulers/MinStealAgreementScheduler.cpp:52-233 | with any policy, after a round every available node that nobody reserved is still on the free list |
| ExpansionProgress.NoNodeIsLeftIdle | elastisim/src/scheduling/schedulers/MinStealAgreementScheduler.cpp:214-230 | without a policy, if after a round some node is available and unreserved, every malleable job that ran when the round began holds its maximum |
| ExpansionProgress.RoundServesInOrder | elastisim/src/scheduling/schedulers/MinStealAgreementScheduler.cpp:214-230 | without a policy, the minimum strategies let a job grow only if every job with less surplus, or as much and earlier in the queue, holds its maximum |
| ExpansionProgress.RoundPrefersPreferred | elastisim/src/scheduling/schedulers/PrefStealAgreementScheduler.cpp:355-361 | without a policy, the preferring strategy lets a job grow beyond its preferred size only if every malleable job reaches its own |
| RoundProperties.RoundIsSafe | elastisim/src/scheduling/schedulers/MinStealAgreementScheduler.cpp:52-233 | from any settled state a round of any of the four strategies keeps assigned lists duplicate-free and disjoint, reserved nodes out of them, the handler's maps right, only pending jobs holding reservations, and every job within its limits |
| RoundProperties.EveryFreeNodeIsAccountedFor | elastisim/src/scheduling/schedulers/MinStealAgreementScheduler.cpp:52-233 | every initially free node is in exactly one of: a started job, an expanded job, still free |
| RoundProperties.RoundRespectsLimits | elastisim/src/scheduling/schedulers/MinCommonPoolScheduler.cpp:55-237 | donors keep their minimum, receivers stay below their maximum, nobody else changes, started jobs get at most, without a policy exactly, one of the sizes of their strategy |
| RoundProperties.PlanningNeverFails | elastisim/src/scheduling/utils/JobUtils.cpp:411-415 | from any settled state no planning check of a round ends the simulation |
| RoundProperties.EmptyReservationsFail | elastisim/src/scheduling/utils/JobUtils.cpp:411-415 | resolving an empty reservation would, with every strategy |
| ReservationHistory.RoundStartsAsAsked | elastisim/src/scheduling/malleability/MalleabilityHelper.cpp:105-161 | a job that a round starts from its reservation gets all of it, which is less than was selected for it if and only if a selected node refused; every other job it starts gets exactly one of its sizes |
| ReservationHistory.RoundRecords | elastisim/src/scheduling/malleability/MalleabilityHelper.cpp:105-161 | a round keeps true that reservations are smaller than what was selected exactly if a node refused |
| ReservationHistory.RoundJustifies | elastisim/src/scheduling/malleability/MalleabilityHelper.cpp:105-161 | a round gives a job fewer nodes than its minimum only if a selected node refused it |
| ReservedStarts.RoundStartsExactlyIfAllFree | elastisim/src/scheduling/malleability/DirectAgreementHandler.cpp:41-71 | without a policy, MinAgreement starts a job that holds a reservation in a round if and only if all its reserved nodes are free when the round begins |
| ReservedStarts.StealStartsIfEnoughReserved | elastisim/src/scheduling/malleability/StealAgreementHandler.cpp:112-164 | without a policy, with stealing, a job starts at its turn if and only if as many reserved nodes are free as it has reserved |
| ReservedStarts.PoolStartsIfEnoughFree | elastisim/src/scheduling/malleability/PoolAgreementHandler.cpp:42-72 | without a policy, from the pool, a job starts at its turn if and only if as many nodes are free as it has reserved |
| HeadDelays.WalkTakesFewest | elastisim/src/scheduling/schedulers/MinStealAgreementScheduler.cpp:115-124 | the walk takes the fewest first running jobs that hold the needed nodes, or all, and returns when the last of them ends |
| HeadDelays.DelaysHeadExactlyIf | elastisim/src/scheduling/schedulers/MinStealAgreementScheduler.cpp:110-128 | a job delays the head if and only if it is not the head and the fewest soonest-ending running jobs that hold the nodes it takes from the head all end before the head's runtime |
| HeadDelays.PreferredDelaysHeadExactlyIf | elastisim/src/scheduling/schedulers/PrefStealAgreementScheduler.cpp:220-240 | likewise for the chosen size, against what the head could have now and its runtime on that |
| HeadDelays.SoonestEndsAscend | elastisim/src/scheduling/schedulers/MinStealAgreementScheduler.cpp:98-108 | the running jobs are walked over once each, in the order in which they end |
| MalleableScheduling.MalleableScheduler.FilterNodesForPendingAllocation | elastisim/src/scheduling/utils/JobUtils.cpp:277-294 | the nodes that accept the job's runtime on the planned count, which is positive, when the policy manager is asked one by one |
| MalleableScheduling.MalleableScheduler.FilterNodesForRunningJob | elastisim/src/scheduling/utils/JobUtils.cpp:296-313 | the nodes that accept the job's remaining runtime, target pool ignored, for a job with a prediction |
| MalleableScheduling.MalleableScheduler.ApplyAgreement | elastisim/src/scheduling/malleability/AgreementHandler.cpp:104-145 | the job starts, leaves the queue, its nodes leave the free list |
| MalleableScheduling.MalleableScheduler.ResolveDirectOne | elastisim/src/scheduling/malleability/DirectAgreementHandler.cpp:41-71 | the job starts exactly if its whole reservation is free and accepted; free but refused it loses the reservation; otherwise nothing changes |
| MalleableScheduling.MalleableScheduler.ResolveStealOne | elastisim/src/scheduling/malleability/StealAgreementHandler.cpp:112-164 | with enough free reserved nodes the job steals them and starts on its reservation, or loses it if refused; otherwise nothing changes |
| MalleableScheduling.MalleableScheduler.ResolvePoolOne | elastisim/src/scheduling/malleability/PoolAgreementHandler.cpp:42-72 | with enough accepting free nodes the job starts on pooled nodes first, and as many mappings leave the pool; otherwise nothing changes |
| MalleableScheduling.MalleableScheduler.ResolveAgreements | elastisim/src/scheduling/malleability/StealAgreementHandler.cpp:100-168 | jobs with reservations are resolved in queue order until nothing (reserved) is free; the round's invariant holds afterwards (the function that EarlyExitIsHarmless and HoldersWaitOnlyForMore are about) |
| MalleableScheduling.MalleableScheduler.DelaysHead | elastisim/src/scheduling/schedulers/MinStealAgreementScheduler.cpp:110-128 | the loop decides what DelaysHeadExactlyIf says |
| MalleableScheduling.MalleableScheduler.BackfillAtMinimum | elastisim/src/scheduling/schedulers/MinStealAgreementScheduler.cpp:135-186 | the job at the index starts on its minimum of accepting free nodes unless there are too few or the head would be delayed (the function that BackfillTurnExactly is about) |
| MalleableScheduling.MalleableScheduler.PreferredDelaysHead | elastisim/src/scheduling/schedulers/PrefStealAgreementScheduler.cpp:220-240 | the loop decides what PreferredDelaysHeadExactlyIf says; a head that could not start is never delayed |
| MalleableScheduling.MalleableScheduler.BackfillPreferred | elastisim/src/scheduling/schedulers/PrefStealAgreementScheduler.cpp:242-323 | the job at the index starts on its preferred number of accepting free nodes, else on its minimum, unless neither is possible or the head would be delayed |
| MalleableScheduling.MalleableScheduler.Backfill | elastisim/src/scheduling/schedulers/MinStealAgreementScheduler.cpp:130-188 | the queue is walked until it or the free list ends, skipping a job after each start; the invariant holds and lists stay free of reservations |
| MalleableScheduling.MalleableScheduler.GetAvailableNodesForShrinking | elastisim/src/scheduling/malleability/MalleabilityHelper.cpp:296-319 | the number of unreserved nodes above the minimum |
| MalleableScheduling.MalleableScheduler.AllocateResourcesFromJob | elastisim/src/scheduling/malleability/MalleabilityHelper.cpp:218-254 | the first unreserved nodes beyond the size the donor may go down to, in list order, at most as many as needed |
| MalleableScheduling.MalleableScheduler.SelectShrinkJobs | elastisim/src/scheduling/malleability/MalleabilityHelper.cpp:75-103 | donors are asked in order until exactly enough is collected, all or nothing (the selection of SelectionIsExact) |
| MalleableScheduling.MalleableScheduler.SelectDonations | elastisim/src/scheduling/schedulers/PrefStealAgreementScheduler.cpp:327-352 | the preferring strategy's three attempts (the selection of PreferenceIsGentle), the others' one |
| MalleableScheduling.MalleableScheduler.FilterForReservation | elastisim/src/scheduling/malleability/MalleabilityHelper.cpp:124-135 | the subset of FilterIsGreatest, reached by dropping refusing nodes until none refuses |
| MalleableScheduling.MalleableScheduler.ApplyShrinking | elastisim/src/scheduling/malleability/MalleabilityHelper.cpp:105-161 | donor by donor, the accepted part of each donation is reserved for the pending job and taken from the donor |
| MalleableScheduling.MalleableScheduler.ShrinkPhase | elastisim/src/scheduling/schedulers/MinStealAgreementScheduler.cpp:190-212 | every waiting job in turn gets what the donors can still spare; no list changes (the function that PhaseAsksInOrder is about) |
| MalleableScheduling.MalleableScheduler.ExpandJob | elastisim/src/scheduling/malleability/MalleabilityHelper.cpp:163-216 | the job grows by the largest possible number of accepting free nodes (the expansion of ExpansionIsLargest), which leave the free list |
| MalleableScheduling.MalleableScheduler.ExpandTo | elastisim/src/scheduling/schedulers/PrefStealAgreementScheduler.cpp:103-160 | jobs grow towards the aim in order of their surplus until nothing is free |
| MalleableScheduling.MalleableScheduler.ExpandPhase | elastisim/src/scheduling/schedulers/MinStealAgreementScheduler.cpp:214-230 | the free nodes are offered to the malleable jobs; the preferring strategy first fills up to the preferred sizes (the function that ExpansionExpands is about) |
| MalleableScheduling.MalleableScheduler.GetPending | elastisim/src/scheduling/utils/JobQueue.cpp:24-33 | the pending jobs in queue order |
| MalleableScheduling.MalleableScheduler.GetRunning | elastisim/src/scheduling/utils/JobQueue.cpp:35-44 | the running jobs in queue order |
| MalleableScheduling.MalleableScheduler.GetRunningMalleable | elastisim/src/scheduling/utils/JobQueue.cpp:56-65 | the running malleable jobs in queue order |
| MalleableScheduling.MalleableScheduler.Schedule | elastisim/src/scheduling/schedulers/MinStealAgreementScheduler.cpp:52-233 | the whole round on the objects is the round on values, for all four strategies |
| Runs.InvokeKeepsSettled | elastisim/src/system/Scheduler.cpp:67-164 | one invocation, with everything before and after the round, leads from a settled world to a settled world |
| Runs.HandleKeepsSettled | elastisim/src/system/Scheduler.cpp:305-343 | so does every message |
| Runs.ReachableIsSettled | elastisim/src/system/Scheduler.cpp:305-343 | every reachable world is settled |
| Runs.NodesAreExclusive | elastisim/src/system/Node.cpp:96-178 | in every reachable world a node runs at most one job; its running and expected jobs are exactly those that execute on it and wait for it, its state says which, and no check ever failed |
| Runs.PowerIsSafe | elastisim/src/system/Node.cpp:360-382 | in every reachable world a draining, shutting down, off or booting node is idle, and a firing transition only goes off or becomes free |
| ReservationHistory.ReservationsAreAsAsked | elastisim/src/scheduling/malleability/MalleabilityHelper.cpp:105-161 | in every reachable world a reservation has one of the sizes of a start as was asked for, or fewer nodes if and only if a selected node refused |
| ReservationHistory.InvocationsStartAsAsked | elastisim/src/scheduling/malleability/AgreementHandler.cpp:104-145 | in every reachable world the round of an invocation starts jobs as RoundStartsAsAsked says |
| ReservationHistory.JobsBelowMinimumWereRefused | elastisim/src/scheduling/malleability/MalleabilityHelper.cpp:105-161 | with any policy, in every reachable world, an active job is assigned or runs on fewer nodes than its minimum only if a node selected for it refused it |
| RefusalWitness.RefusalStartsBelowMinimum | elastisim/src/scheduling/malleability/MalleabilityHelper.cpp:105-161 | a possible run after which a job runs on fewer nodes than its minimum, and it is on record that one refused |
| ReservedStarts.InvocationStartsExactlyIfAllFree | elastisim/src/system/Scheduler.cpp:121-157 | without a policy, after an invocation with MinAgreement, a job that held a reservation runs if and only if all its reserved nodes were free |
| Runs.JobsStayWithinLimits | elastisim/src/software/Job.cpp:262-295 | in every reachable world no active job exceeds its maximum; without a policy none is below its minimum (with one, JobsBelowMinimumWereRefused) |
| Runs.StartedJobsGetTheirSize | elastisim/src/scheduling/malleability/DirectAgreementHandler.cpp:41-71 | without a policy, in every reachable world, a pending job that an invocation starts runs on exactly its minimum; with PrefStealAgreement on exactly its minimum or its preferred number |
| Runs.PoolIsConserved | elastisim/src/scheduling/malleability/PoolAgreementHandler.cpp:42-123 | in every reachable world as many nodes are reserved as the order list has entries and as the reservations ask for together |
| Runs.ReservationsAreConsistent | elastisim/src/scheduling/malleability/AgreementHandler.h:40-47 | in every reachable world the two maps are inverse, only pending jobs hold reservations, and nobody is assigned a reserved node |
| SchedulerActors.SchedulerActor.constructor | elastisim/src/system/Scheduler.cpp:35-65 | the objects make up the initial world |
| SchedulerActors.SchedulerActor.Prepare | elastisim/src/system/Scheduler.cpp:96-119 | progress, policy, malleable jobs and due transitions take effect in this order, and leave the world settled |
| SchedulerActors.SchedulerActor.ForwardAllocations | elastisim/src/system/Scheduler.cpp:149-157 | every started job that waits is forwarded |
| SchedulerActors.SchedulerActor.Answer | elastisim/src/system/Scheduler.cpp:137-148 | the job that asked for the invocation is reconfigured if that is pending by now, before allocations are forwarded |
| SchedulerActors.SchedulerActor.Schedule | elastisim/src/system/Scheduler.cpp:67-164 | nothing too soon after the last invocation, else the whole invocation, with or without a requesting job |
| SchedulerActors.SchedulerActor.HandleJobSubmit | elastisim/src/system/Scheduler.cpp:166-173 | submission, and an invocation if configured |
| SchedulerActors.SchedulerActor.HandleSchedulingPoint | elastisim/src/system/Scheduler.cpp:267-284 | an invocation on behalf of the job if so configured; else reconfiguration if pending, and then an invocation if configured |
| SchedulerActors.SchedulerActor.HandleProcessedWorkload | elastisim/src/system/Scheduler.cpp:175-190 | completion, and an invocation if configured |
| SchedulerActors.SchedulerActor.ProcessMessages | elastisim/src/system/Scheduler.cpp:305-343 | the main loop leads the objects to exactly the world that the messages lead to |
| MessageEffects.FirstPendingRuns | elastisim/src/system/Scheduler.cpp:305-343 | without a policy and with nothing reserved, for every message on which the strategy is asked: if the last invocation is long enough ago, then the first pending job runs on one of its sizes when the message has been handled, provided that enough nodes are free |
| MessageEffects.SubmittedJobRuns | elastisim/src/system/Scheduler.cpp:166-173 | in particular a submitted job runs at once if nothing else waits |
| MessageEffects.RequesterIsAnswered | elastisim/src/system/Scheduler.cpp:137-148 | a job that reports a scheduling point has no reconfiguration pending afterwards, unless an invocation it asked for came too soon |
| MessageEffects.PointReconfigures | elastisim/src/system/Scheduler.cpp:270-283 | if scheduling points do not ask the strategy, a pending reconfiguration is carried out: the job executes on exactly what it was assigned, whether or not that invokes the strategy then |
| MessageEffects.FinishedJobLeaves | elastisim/src/system/Scheduler.cpp:175-190 | when a job has finished and that invokes no strategy, no node runs or expects it, and every node it ran on is free |
| WorkloadExecution.RunnableIsPending | elastisim/src/software/Application.cpp:209-347 | with positive iteration counts, running iteration by iteration yields the full trace |
| WorkloadExecution.PendingInOrder | elastisim/src/software/Application.cpp:209-347 | the full trace holds every iteration of every phase once, in order |
| WorkloadExecution.AdvanceConserves | elastisim/src/software/Workload.cpp:86-97 | what is done and what is left always add up to all iterations |
| WorkloadExecution.Workload.constructor | elastisim/src/software/Workload.cpp:22-32 | the total is the sum over the phases |
| WorkloadExecution.Workload.Advance | elastisim/src/software/Workload.cpp:86-97 | completed phases are popped, the next one's count set; completed plus remaining is the total |
| WorkloadExecution.Workload.Complete | elastisim/src/software/Workload.cpp:99-103 | all phases count as completed |
| WorkloadExecution.RunApplication | elastisim/src/software/Application.cpp:209-347 | one application actor, with any choice at each scheduling point: what it executed plus what is left is what there was; the loop terminates |
| WorkloadExecution.RunJob | elastisim/src/software/Application.cpp:209-347 | over any number of actors the executed trace is the full one, and the job completes exactly if every phase has iterations |
| CommunicationMatrix.TrafficTotal | elastisim/src/util/Utility.cpp:686-736 | the sum of all entries of a filled matrix, for every pattern |
| CommunicationMatrix.ConservingPatterns | elastisim/src/util/Utility.cpp:686-736 | the total is the requested size exactly for all-to-all and the three rings |
| CommunicationMatrix.PatternsRelate | elastisim/src/util/Utility.cpp:686-736 | who sends to whom: to the next node round the ring, to the first node when gathering; the opposite patterns are transposed, the two-way ones send both |
| CommunicationMatrix.CreateMatrix | elastisim/src/util/Utility.cpp:686-736 | every entry of the filled matrix, and their sum |
| CommunicationMatrix.NodeKeepsIntraCount | elastisim/src/util/Utility.cpp:752-786 | as many of the messages between all GPUs stay within each node as the intra-node share counts |
| CommunicationMatrix.CreateMatrices | elastisim/src/util/Utility.cpp:752-792 | each node's matrix carries its share, and all nodes plus the network carry exactly the requested size |
| SampledEnergy.HistogramOneChange | scripts/evaluate.py:238-243 | one state change moves one node between two counts |
| SampledEnergy.SampledIntervals | scripts/evaluate.py:227-250 | every interval between samples carries the utilization and the state counts of its left end |
| SolarEnergy.NoDaylightLost | scripts/evaluate.py:260-266 | days outside the loop's bounds contribute no daylight |
| SolarEnergy.SolarEnergyKwh | scripts/evaluate.py:253-269 | the loop computes night power over the whole interval plus the daylight share |
| SolarEnergy.SolarIsAdditive | scripts/evaluate.py:253-269 | the energies of two adjacent intervals add up to the energy of both |
| SolarEnergy.OverlapIsAdditive | scripts/evaluate.py:335-338 | so do the overlaps with windows |
| SolarEnergy.OverlapIsWhole | scripts/evaluate.py:335-338 | windows within the interval overlap it in their whole length |
| ShutdownReport.NoOccurrenceIsLost | scripts/evaluate.py:308-314 | the loop over days finds every covered occurrence of any day and nothing else |
| ShutdownReport.ReportIsSound | scripts/evaluate.py:315-332 | all reported windows lie in the evaluated time, have a length, and do not overlap |
| ShutdownReport.ShutdownWindows | scripts/evaluate.py:272-332 | which policies are refused, why there may be no windows, and exactly which windows there are otherwise |
| EnergyBalance.SampledMetrics | scripts/evaluate.py:341-384 | every total is the sum of its terms over the intervals, each clipped to the evaluated time and skipped if nothing is left |
| EnergyBalance.PowerInterpolates | scripts/evaluate.py:346-362 | busy nodes draw their peak power, the other nodes that are on their idle power |
| EnergyBalance.StateEnergyIsSum | scripts/evaluate.py:373-374 | the energy of every node state is the sum over the intervals that reach into the evaluated time |
| EnergyBalance.UtilizationIsSum | scripts/evaluate.py:376-379 | so are the busy shares, weighted by the seconds in either kind of window |
| EnergyBalance.PeakIsReached | scripts/evaluate.py:372 | the peak is the greatest power of those intervals, and reached unless it is zero |
| EnergyBalance.EnergyIsConserved | scripts/evaluate.py:357-373 | grid plus used solar energy is the total, which is the sum over the node states |
| EnergyBalance.SolarComesFirst | scripts/evaluate.py:366-371 | in no interval is solar energy curtailed while the grid delivers |
| EnergyBalance.SolarIsConserved | scripts/evaluate.py:253-371 | over tiles covering the evaluated time, used plus curtailed is the solar energy of that time |
| EnergyBalance.WindowsAreCovered | scripts/evaluate.py:376-381 | the seconds in windows are the windows' lengths |
| EnergyBalance.NodeSecondsAreComplete | scripts/evaluate.py:372-375 | the node-seconds of all states make up all nodes for the whole time |
| EnergyBalance.Evaluate | scripts/evaluate.py:341-384 | all of these for a run whose samples reach over the evaluated time; the seconds the window metrics are divided by are positive |

## Left out

- AverageCommonPoolScheduler, the rigid schedulers, NativeFifoScheduler and the registry: variants that would only add easy members.
- Kills, walltime monitors, EVOLVING and ADAPTIVE jobs: the malleable strategies do not drive them, and generated jobs have no walltime.
- `allowOversubscription` is fixed to false; job limits satisfy 1 <= min <= pref <= max, as the job generator produces them.
- Floating point: times, works and energies are reals, so rounding is not modelled; integer fields do not overflow.
- Runtime formulas: Amdahl's law of scripts/profiles.json with 0 <= p <= 1; general exprtk formulas are not part of this model.
- SimGrid's actors, mailboxes, hosts, mutexes and task execution: a message is one atomic step, and a barrier is its participant count.
- GPU counts per node, logging, tracing, sensing, progress output, statistics files.
- JSON and CSV parsing: what the readers of the evaluation guarantee about their rows is a precondition there.
- Cost, percentage and job metrics of the evaluation, plotting and run scripts.
- `std::stable_sort` and `std::set` iteration are functions on values, not loops; the running jobs are sorted at the beginning of a round instead of after its first phase, which changes no running job.
- The manager's, the cache's and the handlers' static or singleton state is one object each.
- RoundProperties.RoundRespectsLimits: under an active policy it states only an upper bound for started jobs; ReservationHistory.RoundStartsAsAsked states their sizes.
- Runs.JobsStayWithinLimits: the lower bound under an active policy is ReservationHistory.JobsBelowMinimumWereRefused.
- Runs.HandleKeepsSettled: evolving requests and exceeded walltimes are no messages of the model.
- SchedulerActors.SchedulerActor.ProcessMessages: likewise, and neither is the finalization that ends the loop.
- SchedulerActors.SchedulerActor.Schedule: no job is ever marked for a kill, so none is forwarded.
- Cluster.Cluster.FindFreeNodes: admission is asked on values here; the malleable strategies do not use this search.
- WorkloadExecution.RunApplication: one actor stands for all ranks, which the barrier keeps together; evolving requests are not modelled.
- WorkloadExecution.RunJob: the one-time phases before the loop, the duration of phases and the work of tasks are not modelled, only which iterations are executed.
- EnergyBalance.Evaluate: cost, averages and percentages that are computed from these totals are not modelled.
