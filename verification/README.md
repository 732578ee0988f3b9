# Renovate operator: a verified model

A Dafny model of the stateful parts of the Renovate operator, with proofs of what they promise.

- **The project run scheduler.** A RenovateJob's status holds a list of projects, each Scheduled, Running,
  Completed or Failed, with a priority. The executor tick, webhook and UI requests, cron discovery and the cron
  batch all change it, from several replicas. The model has the list and its operations (`ProjectStatuses`,
  `ProjectLists`, `RenovateJobs`), the optimistic writes that make each operation atomic (`OptimisticWrites`,
  `ApiServers`), the executor as a state machine in which others commit between any two of its steps
  (`ExecutorMachine`), exactly which snapshots it may work from (`StaleSnapshots`), all of it together on one API
  server, refining that machine (`Deployment`), the tick as the loops it runs, recorded as a run of the machine
  (`ExecutorTick`), which projects a tick starts (`PrioritySort`, `StartQueue`, `StartOrder`), and how ticks use up
  the work (`Drain`). `ScheduleRequests` shows that requests coalesce; `CronSchedule` is the closure a cron schedule
  runs.
- **The Forgejo webhook syncer.** One cycle's loops against a server with an answer per repository
  (`WebhookSyncers`), its closed form (`WebhookSync`), and histories of many cycles (`SyncHistory`).
- **Smaller parts.** The fork filter's goroutines (`ForkFilter`), job generations and their cleanup
  (`JobGenerations`), the cron registry (`CronRegistry`), the group pipeline (`GroupValidation`) and the page loops
  of the Forgejo client (`Paging`). `Options` and `Sequences` are helpers.

Loops, in-place updates and nondeterministic orders are methods; each is proved against a specification function,
and the promises are lemmas about those functions or about runs of a state machine. Map iteration order and
goroutine scheduling are nondeterministic choices, so what such a method ensures holds for every order.

## Assumptions

- What the code cannot decide is a parameter: the clock, how an API call ends, the answers of Kubernetes and Forgejo,
  the cron library's verdict on an expression. Parameters are universally quantified.
- Loads return values of their own. `DeepCopyObject` is shallow (src/api/v1alpha1/renovatejob_types.go:172-179), so
  this is an assumption about the client.
- The executor's snapshot may be any old version of the list, and loads inside manager calls any past version. The
  bound on Running entries then holds exactly if each tick begins safely (`SafeToBegin`, see
  `TickStaysWithinIffSafe`); a snapshot that misses no Running project always does (`FreshIsSafe`), and one that is
  a single commit old may not (`LaggingSnapshotBreaksBound`).
- Discovered lists hold no name twice. `ReconcileProjects` does not remove duplicates;
  `ReconcileKeepsRunningCountIffNoDuplicates` shows that a duplicate is exactly what can raise the Running count.
- One executor runs at a time (leader election, src/cmd/main.go:346-356), and distinct projects have distinct job names.
- A repository's hooks are changed by nobody else while a cycle works on them; between cycles anyone may.

## Results that are not what one might expect

- The UI's trigger-all batch skips waiting projects, so it does not commute with single requests:
  `UiBatchCommutesIff` says exactly when it does.
- `AddSchedule` on a registered name leaves the old cron job running without an entry: `PlainAddKeepsValidIff`.
- An old snapshot can make a tick start more than `spec.parallelism` allows: `TickStaysWithinIffSafe` says exactly
  which snapshots can.
- The page loops stop at a page shorter than 50, so a server that caps pages below 50 truncates the list:
  `FetchAll` says exactly when the list arrives whole. A webhook listing cut short can hide the syncer's own hook
  (`SmallPagesAddASecondHook`): `NeverASecondHookIff` and `NoHookIsLeakedIff` say exactly when that adds a second
  hook or loses one, and `SecondCycleIsQuietIff` when every further cycle adds another.
- A job created in the same second as an older generation that is listed before it is not what lookup returns:
  `CreateAndCleanUp` says exactly when it is.

## Model

| member | source | states |
|---|---|---|
| ProjectStatuses.Transition | src/internal/utils/projectStatus.go:11-70 | a status only moves along an allowed edge, and LastRun changes exactly when Running is left |
| ProjectStatuses.ProjectStatus.GetUpdateStatusForProject | src/internal/utils/projectStatus.go:11-24 | the dispatch leaves the record as the edge table says, and an unknown status leaves it alone |
| ProjectStatuses.ProjectStatus.ValidateScheduled | src/internal/utils/projectStatus.go:26-36 | field by field: scheduling is refused while Running and otherwise only raises the priority |
| ProjectStatuses.ProjectStatus.ValidateRunning | src/internal/utils/projectStatus.go:38-47 | field by field: only a Scheduled project becomes Running without priority, and the duration is cleared |
| ProjectStatuses.ProjectStatus.ValidateCompleted | src/internal/utils/projectStatus.go:49-59 | field by field: only a Running project completes, stamping LastRun; the reported duration is taken in any case |
| ProjectStatuses.ProjectStatus.ValidateFailed | src/internal/utils/projectStatus.go:60-70 | field by field: only a Running project fails, stamping LastRun; the reported duration is taken in any case |
| RenovateJobs.RenovateJob.UpdateProject | src/internal/crdManager/renovateJobManager.go:192-210 | the first entry of that name makes the transition, or a bare entry is appended |
| RenovateJobs.RenovateJob.UpdateSelected | src/internal/crdManager/renovateJobManager.go:225-231 | exactly the selected entries make the transition, in place |
| RenovateJobs.RenovateJob.ReconcileWith | src/internal/crdManager/renovateJobManager.go:247-281 | the map-building loops produce the reconciled list and delete the metrics of exactly the dropped names |
| ProjectLists.OperationsKeepConsistency | src/internal/crdManager/renovateJobManager.go:184-286 | every operation keeps names unique, priorities non-negative, and a positive priority only on a Scheduled project |
| ProjectLists.OperationsMoveSafely | src/internal/crdManager/renovateJobManager.go:184-286 | a project listed before and after a commit moved along an allowed edge or not at all, LastRun changing exactly on leaving Running |
| ProjectLists.ForeignNeverAddsRunning | src/internal/crdManager/renovateJobManager.go:184-286 | no operation but the executor's makes a project Running |
| ProjectLists.UpdateOneNames | src/internal/crdManager/renovateJobManager.go:192-210 | how a single update changes the set of projects in any given status |
| ProjectLists.ReconcileKeepsRunningCountIffNoDuplicates | src/internal/crdManager/renovateJobManager.go:267-281 | no consistent store gains Running entries if and only if the discovered list has no duplicate |
| ProjectLists.ReconcileConserves | src/internal/crdManager/renovateJobManager.go:267-281 | the new names are the discovered list, a stored name's last entry carries over whole, the rest are bare and Scheduled |
| ProjectLists.ReconcileIdempotent | src/internal/crdManager/renovateJobManager.go:247-281 | reconciling again with the same list changes nothing, even with duplicates in it |
| ProjectLists.CronLeavesOnlyWaitingOrRunning | src/controllers/renovatejob_controller.go:113-125 | after discovery and the cron batch every project is Running or Scheduled, Running exactly the survivors that ran |
| CronSchedule.CronBatchLeavesOnlyWaitingOrRunning | src/controllers/renovatejob_controller.go:120-125 | whatever list the batch meets, it leaves every project Running, if it ran, or Scheduled |
| CronSchedule.RunSchedule | src/controllers/renovatejob_controller.go:76-141 | with others committing throughout: exactly when the reconcile and the batch succeed; a failed discovery changes nothing, the batch follows only a committed reconcile of the selected projects, right after it every project waits or runs, and webhooks are synced exactly after a successful reconcile |
| CronSchedule.SelectedInFull | src/controllers/renovatejob_controller.go:93-105 | the projects gone on with are all, or those whose fork lookup failed or found no fork, in order |
| OptimisticWrites.StepKeepsInv | src/internal/crdManager/updateRenovateJob.go:13-20 | every load, conflicting or successful write, reload and error keeps the history sequential and each call's commits accounted for |
| OptimisticWrites.CallsAreAtomic | src/internal/crdManager/renovateJobManager.go:187-213 | in every run of concurrent calls the history is a sequential composition of operations that loses no earlier commit; success means one commit, an error at most one |
| ApiServers.ApiServer.TryOnce | src/internal/crdManager/renovateJobManager.go:241-285 | one attempt from a possibly stale load commits exactly if it can be written and nobody committed since the version it read; it conflicts exactly if somebody did |
| ApiServers.ApiServer.RetryOnConflict | src/internal/crdManager/renovateJobManager.go:241-285 | success exactly if some attempt succeeds after nothing but conflicts; one commit then, at most one on error; metrics of every name dropped by a committed reconcile deleted, and of no discovered name |
| ApiServers.PrevailsInFull | src/internal/crdManager/renovateJobManager.go:187-213 | attempt by attempt: only a conflict leads to another attempt, and any other error ends the call |
| ScheduleRequests.OneRequest | src/internal/utils/projectStatus.go:26-36 | what one request makes of one project, present or not |
| ScheduleRequests.RequestsCoalesce | src/webhook/server.go:81-92 | any sequence of requests and cron batches leaves a project that does not run Scheduled with the maximum priority, and a Running one unchanged |
| ScheduleRequests.OrderOfRequestsIsIrrelevant | src/controllers/renovatejob_controller.go:120-125 | permuting the requests does not change the outcome |
| ScheduleRequests.RequestsAreForeign | src/webhook/server.go:81-92 | the updates that webhooks, the UI and the cron closure send are of the kind the executor's bound allows for |
| ScheduleRequests.UiBatchCommutesIff | src/ui/renovateController.go:433-443 | in any list, the trigger-all batch commutes with a request for any name exactly if the project is not listed, runs or waits, or a priority of at least 2 is involved |
| PrioritySort.SortInPlace | src/internal/renovate/executor.go:244-246 | the in-place sort yields the stable descending order |
| PrioritySort.SortedDescending | src/internal/renovate/executor.go:244-246 | priorities descend |
| PrioritySort.SortedIsPermutation | src/internal/renovate/executor.go:244-246 | the sort neither loses nor invents entries |
| ExecutorMachine.FinishKeepsInv | src/internal/renovate/executor.go:202-231 | taking a job's outcome keeps the counter right and stored Running projects counted, even if the call errs after committing |
| ExecutorMachine.StartKeepsInv | src/internal/renovate/executor.go:254-275 | so does a start, even if the entry was removed or changed meanwhile, and Running stays within the counter |
| ExecutorMachine.EndOfFreeingKeepsInv | src/internal/renovate/executor.go:243-252 | no project to be started is among those counted when the second pass begins |
| ExecutorMachine.StepKeepsInv | src/internal/renovate/executor.go:159-281 | every step of the tick or of anyone else keeps the counter the number of projects it stands for, none of them still to be started, whatever the snapshot's age |
| ExecutorMachine.StepKeepsCovered | src/internal/renovate/executor.go:159-281 | Running in the store stays within the projects the counter stands for, if no tick begins on a snapshot that misses one |
| ExecutorMachine.ExposureNeverGrows | src/internal/renovate/executor.go:160-278 | once a tick has begun, no step of it or of anyone else raises the number of projects that may run at its worst |
| ExecutorMachine.FreshIsSafe | src/internal/renovate/executor.go:152-167 | a snapshot that misses no Running project lets a tick begin safely, however old it is otherwise |
| ExecutorMachine.StepRespectsLimit | src/internal/renovate/executor.go:254-275 | no step raises the Running count above both its former value and the tick's parallelism |
| ExecutorMachine.SafeTicksKeepTheBound | src/internal/renovate/executor.go:152-167 | in every run whose ticks begin safely there are never more than p Running entries, however old the snapshots, whatever others commit and however ticks abort |
| ExecutorMachine.NeverMoreThanParallelism | README.md:44 | in particular if no tick's snapshot misses a Running project and none reads a parallelism above p |
| ExecutorMachine.LoweredParallelismOnlyDrains | src/internal/renovate/executor.go:254-275 | once parallelism is at most p, the Running count never rises while at or above p |
| ExecutorMachine.RunsMoveSafely | src/internal/utils/projectStatus.go:11-70 | in every run, from any state to any later one through which a project stays listed, its last change of status was along an allowed edge, and LastRun is the time it last left Running, or unchanged |
| StaleSnapshots.WorstTick | src/internal/renovate/executor.go:169-278 | whatever the snapshot and the store, some run of the tick ends with exactly the exposed projects Running |
| StaleSnapshots.TickStaysWithinIffSafe | src/internal/renovate/executor.go:152-278 | a tick on a snapshot of any age stays within p in all its runs if and only if what runs, together with what the snapshot would start beside it, fits into p |
| StaleSnapshots.LaggingSnapshotBreaksBound | src/internal/renovate/executor.go:152-167 | on the list as it was one commit earlier a tick with one slot ends with two Running projects |
| Deployment.StepRefines | src/internal/crdManager/renovateJobManager.go:184-214 | with every call a series of loads, conflicting writes and reloads, the executor's own included, each step is a step of the executor machine or none |
| Deployment.NoVersionExceedsParallelism | README.md:44 | so in every such run whose ticks begin safely no version of the store holds more than p Running entries |
| ExecutorTick.Cluster.Step | src/internal/crdManager/renovateJobManager.go:184-214 | a commit extends the recorded run, which stays within the limit in all its states |
| ExecutorTick.Executor.FreeOne | src/internal/renovate/executor.go:175-241 | one project of the first pass is a step of the machine, which carries the job's outcome, duration and result; the tick ends with an error exactly if the lookup, the call or the deletion of a completed job fails |
| ExecutorTick.Executor.FreeSlots | src/internal/renovate/executor.go:160-241 | the first pass ends with the counter equal to the projects whose job is still active; it errs exactly if one project does; undisturbed it records exactly the ended ones |
| ExecutorTick.Executor.StartOne | src/internal/renovate/executor.go:248-278 | one project of the second pass is a step of the machine, started only while a slot is free; it errs exactly if the creation or the call fails |
| ExecutorTick.Executor.StartScheduled | src/internal/renovate/executor.go:248-278 | the second pass starts the first waiting projects of the order that fit the free slots, up to the first error |
| ExecutorTick.Executor.ReconcileProjects | src/internal/renovate/executor.go:159-281 | the tick is a run of the machine; it errs exactly if one of its projects does, and starts the plan for the snapshot up to there; undisturbed and without error it leaves exactly the planned list, with the outcome of every job |
| ExecutorTick.TickRecordsOutcome | src/internal/renovate/executor.go:191-231 | an undisturbed tick makes a project Completed or Failed as its job ended, with its duration, result and time; Failed if the job is missing; and changes nothing else but the started ones |
| ExecutorTick.StillActiveIsCount | src/internal/renovate/executor.go:162-229 | the counter after the first pass is the number of Running projects whose job is active |
| ExecutorTick.Executor.ExecuteRenovateJob | src/internal/renovate/executor.go:152-157 | the same for whatever snapshot the load returns, if the tick begins safely, and nothing happens if the load fails |
| StartOrder.SortedIsRankOrdered | src/internal/renovate/executor.go:244-246 | the sorted snapshot is in rank order: more urgent first, ties to the earlier index |
| StartOrder.PlaceIsRank | src/internal/renovate/executor.go:244-252 | a waiting project's place in the queue is the number of waiting projects that outrank it |
| StartOrder.StartedIffRankBelowSlots | src/internal/renovate/executor.go:244-278 | a waiting project is started exactly if fewer waiting projects outrank it than slots are free |
| StartOrder.PlanFillsTheSlots | src/internal/renovate/executor.go:248-278 | only waiting projects are started, each once, and as many as there are slots or work |
| StartOrder.NoStartedProjectIsOutranked | src/internal/renovate/executor.go:244-278 | no project left waiting outranks a started one |
| Drain.TickNames | src/internal/renovate/executor.go:175-278 | an undisturbed tick moves exactly the plan from waiting to running and exactly the ended projects out of running |
| Drain.TickLowersMeasure | src/internal/renovate/executor.go:175-278 | twice the waiting plus the running projects falls by one per start and per finish and by nothing else |
| Drain.Execute | src/internal/renovate/executor.go:94-109 | over any number of ticks with others committing, every tick whose load succeeds begins, and no state holds more Running entries than the limit; undisturbed ticks compose, without failure exactly if none of them errs |
| Drain.StartedOnceOrStillWaiting | src/internal/renovate/executor.go:248-278 | every project that waited has been started exactly once or still waits, and no other was started |
| Drain.TicksDrain | src/internal/renovate/executor.go:175-278 | if jobs finish, as many ticks as the measure leave nothing waiting or running, having started each waiting project once |
| WebhookSyncers.WebhookSyncer.EnsureWebhook | src/internal/forgejo/sync.go:150-192 | the first matching hook that the page loop returns is recorded, else one is requested and recorded if its creation is reported |
| WebhookSyncers.WebhookSyncer.EnsureAll | src/internal/forgejo/sync.go:82-95 | in any order, exactly the well-named admin repositories are ensured |
| WebhookSyncers.WebhookSyncer.RemoveIneligible | src/internal/forgejo/sync.go:97-137 | in any order: a recorded repository with the topic and no permission is forgotten, one without the topic exactly if its hook was there and the deletion accepted |
| WebhookSyncers.WebhookSyncer.RunOnce | src/internal/forgejo/sync.go:63-148 | whatever the iteration order, map and hooks are the closed form, and the only deletions requested are of recorded ids off the topic |
| WebhookSyncers.ReplaceSyncer | src/controllers/renovatejob_controller.go:217-237 | a replaced syncer's record is taken over, else the persisted one |
| WebhookSync.ClosedForm | src/internal/forgejo/sync.go:70-148 | the per-repository outcomes determine both final maps |
| WebhookSync.WithoutPermissionIsForgotten | src/internal/forgejo/sync.go:111-119 | a repository found with the topic, never with admin permission, has no record afterwards, keeps its hooks, and nothing is requested for it |
| WebhookSync.OffTopicIsDeleted | src/internal/forgejo/sync.go:121-136 | a repository not found loses its record exactly if the recorded hook was there and its deletion accepted; nothing is created for it |
| WebhookSync.WithPermissionIsEnsured | src/internal/forgejo/sync.go:82-95 | a repository found with admin permission is ensured, if its name has an owner; none of its hooks is deleted |
| WebhookSync.EnsureInFull | src/internal/forgejo/sync.go:150-191 | the first listed hook for the URL is recorded; without one a hook is requested, and recorded if its creation is reported |
| WebhookSync.ListedAndShown | src/internal/forgejo/client.go:126-152 | what a listing shows of a repository's hooks, and when it arrives, in numbers |
| SyncHistory.CycleKeepsOneHookIff | src/internal/forgejo/sync.go:150-191 | a cycle gives a repository a second hook for the URL exactly if its listing stops before the first one and a creation takes effect |
| SyncHistory.NeverASecondHookIff | src/internal/forgejo/sync.go:82-95 | over any history of cycles, restarts with any state, failed-but-effective creations and outside changes, there is never a second hook if and only if no cycle overlooks the first |
| SyncHistory.NeverASecondHook | src/internal/forgejo/sync.go:82-95 | with pages as large as asked for there never is one |
| SyncHistory.SmallPagesAddASecondHook | src/internal/forgejo/client.go:126-152 | a server with one hook to a page makes the cycle add a second hook |
| SyncHistory.CycleLosesNothingIff | src/internal/forgejo/sync.go:97-137 | a reported hook that is still there after a cycle is recorded, or its repository kept the topic and lost admin permission, exactly unless the cycle overlooked it and recorded another |
| SyncHistory.NoHookIsLeakedIff | src/controllers/renovatejob_controller.go:227-237 | over any orderly history every hook reported as created is recorded, gone, or was given up for lack of permission, and none is doubled, if and only if no cycle overlooks a hook |
| SyncHistory.NoHookIsLeaked | src/controllers/renovatejob_controller.go:227-237 | with pages as large as asked for nothing is leaked |
| SyncHistory.CycleRecoversRecord | src/internal/forgejo/sync.go:157-165 | a cycle whose listing of an eligible repository shows its hook records it again, whatever was recorded before |
| SyncHistory.SecondCycleIsQuietIff | src/internal/forgejo/sync.go:63-148 | after an error-free cycle a second one requests no deletion, and requests no creation and changes nothing exactly if the hooks just added fit into what a listing shows |
| ForkFilter.MoveKeepsInv | src/internal/gitprovider/client.go:78-88 | every goroutine step keeps the semaphore count, the call counts and the result slots right |
| ForkFilter.EveryInterleavingIsBounded | src/internal/gitprovider/client.go:66-88 | in every interleaving at most ten lookups are in flight, none is repeated, and each slot holds its own project's answer |
| ForkFilter.NeverStuck | src/internal/gitprovider/client.go:78-89 | while some goroutine is not done, some step is possible |
| ForkFilter.FilterForks | src/internal/gitprovider/client.go:61-110 | under any scheduling the result is, in order, the projects whose lookup failed or found no fork; each project is asked about exactly once, in four moves per project |
| JobGenerations.LabelRoundTrip | src/internal/crdManager/jobManager.go:100-102 | the generation label reads back as the time it was written from |
| JobGenerations.SignedLabel | src/internal/crdManager/jobManager.go:55-61 | labels may carry a sign and are read within 64 bits |
| JobGenerations.DecimalDigits | src/internal/crdManager/jobManager.go:57 | labels are decimal |
| JobGenerations.ParseIntRange | src/internal/crdManager/jobManager.go:57-60 | whatever is not a sign and digits, or does not fit into 64 bits, is unreadable |
| JobGenerations.ReadGeneration | src/internal/crdManager/jobManager.go:54-62 | a missing or unreadable label counts as 0 |
| JobGenerations.Cluster.GetJobByLabel | src/internal/crdManager/jobManager.go:42-70 | lookup returns the leftmost job of the highest generation among those in the selector's namespace with its name, type and generation, and finds none exactly if there is none |
| JobGenerations.NewestIsFound | src/internal/crdManager/jobManager.go:51-69 | a job newer than all other matching ones is what every lookup returns |
| JobGenerations.Cluster.CleanupOldGenerations | src/internal/crdManager/jobManager.go:122-137 | exactly the jobs in the selector's namespace with its name and type and another generation are deleted, as far as the deletions succeed; a job of the kept generation that lookup returns is returned after each of them |
| JobGenerations.CreateAndCleanUp | src/internal/crdManager/jobManager.go:99-119 | from creation through cleanup every lookup returns the created job, exactly if no older job had a later generation and none listed before it the same |
| CronRegistry.CommandsKeepValid | src/scheduler/scheduler.go:98-124 | any mix of replacements, removals and executions keeps live jobs and entries in bijection and registered names among the health names |
| CronRegistry.ReplaceRegistersOrClears | src/scheduler/scheduler.go:98-111 | a replacement registers the expression, or leaves the name out of both entries and live jobs if it does not parse |
| CronRegistry.PlainAddKeepsValidIff | src/scheduler/scheduler.go:72-95 | a plain add keeps the bijection exactly if the name is new or the expression does not parse |
| CronRegistry.Scheduler.AddSchedule | src/scheduler/scheduler.go:73-95 | adds the cron job, the entry and the health record together, or nothing |
| CronRegistry.Scheduler.AddScheduleReplaceExisting | src/scheduler/scheduler.go:98-111 | keeps an entry of the same expression, else replaces it |
| CronRegistry.Scheduler.RemoveSchedule | src/scheduler/scheduler.go:112-124 | removes entry, cron job and health record |
| CronRegistry.Scheduler.BeginExecution | src/scheduler/scheduler.go:141-149 | an execution is recorded as running, and nothing else has changed |
| CronRegistry.Scheduler.EndExecution | src/scheduler/scheduler.go:151-159 | after an execution the health record says that it does not run, and nothing else has changed |
| GroupValidation.ValidateGroupName | src/ui/group_validation.go:24-38 | accepts exactly the names of 1 to 256 letters, digits and ._@/,=- and blanks |
| GroupValidation.SanitizeGroups | src/ui/group_validation.go:42-66 | layer 1 keeps, in order and trimmed, the acceptable ones among the first hundred |
| GroupValidation.NormalizeAndValidateGroups | src/ui/group_validation.go:82-106 | layer 2 keeps each normal form where it first occurs |
| GroupValidation.FilterGroupsByPolicy | src/ui/group_validation.go:121-154 | layer 3 keeps, in order, exactly the names with the prefix that match the pattern |
| GroupValidation.ValidateAndNormalizeGroups | src/ui/group_validation.go:158-182 | the three layers composed |
| GroupValidation.CleanedIsFirstClaims | src/ui/group_validation.go:51-106 | the first two layers yield exactly the acceptable names in the order they are first claimed |
| GroupValidation.PipelineIsCanonical | src/ui/group_validation.go:156-182 | a name is in the output exactly if it has the prefix, matches the pattern, and some claim among the first hundred stands for it; no duplicates, at most 100, in first-claim order |
| GroupValidation.CanonicalNames | src/ui/group_validation.go:20-38 | output names are trimmed, of 1 to 256 characters, all lower-case letters, digits or ._@/,=- and blanks |
| GroupValidation.PipelineIgnoresCase | src/ui/group_validation.go:69-79 | claims that differ only in case have the same result |
| GroupValidation.TrimSpaceSplits | src/ui/group_validation.go:53-54 | trimming takes off white space at both ends and nothing else |
| GroupValidation.WhiteSpace | src/ui/group_validation.go:20 | white space in ASCII is the blank and the control characters 9 to 13; no name may hold any beyond ASCII |
| GroupValidation.Lowered | src/ui/group_validation.go:75 | lower-casing moves the 26 capitals by 32 and no other character of a name |
| GroupValidation.PipelineIsIdempotent | src/ui/group_validation.go:156-182 | running the pipeline on its output returns the output |
| Paging.FetchAll | src/internal/forgejo/client.go:88-153 | the loop ends after one request more than there are full pages and returns the list in order; it is whole exactly if the server's cap is 50 or more or one page suffices |
| Paging.PageNumbers | src/internal/forgejo/client.go:88-153 | with fifty items a page: how many requests are made, when they all arrive, and what is collected |

## Left out

- ExecutorMachine.SafeTicksKeepTheBound: bounds the stored Running entries, not Kubernetes jobs; a job whose status write failed, or whose Running project was dropped by discovery, runs on uncounted.
- ProjectStatuses.Transition: treats any status outside the four constants as one that can only be rescheduled; optional update fields no transition reads are not modelled.
- OptimisticWrites.CallsAreAtomic: the number of attempts is any positive number, since it is the client library's default and not fixed by this repository; the in-process lock, which only removes interleavings, is not modelled.
- WebhookSyncers.WebhookSyncer.RunOnce: nobody else changes a repository's hooks during a cycle, and hook ids come with the answers, so they do not depend on the order of creation.
- SyncHistory.NoHookIsLeakedIff: assumes carried-over state and one webhook URL; the rollback after a failed annotation write and a changed URL can both drop the id of a live hook.
- CronSchedule.RunSchedule: ends with the sync; writing its state to the annotation, and the rollback if that fails, are not modelled.
- ForkFilter.FilterForks: the lookup answers are given per project, as each is asked once; context cancellation is an answer like any other.
- JobGenerations.CreateAndCleanUp: one cleanup at a time; a late cleanup deletes every other generation.
- GroupValidation.NormalizeGroups: lower-cases ASCII letters only, because the pipeline hands it no other letters; strings are sequences of Unicode scalars.
- CronRegistry.Scheduler.AddScheduleReplaceExisting: one caller at a time; the lock is released between the check and the add.
- Paging.FetchAll: models both page loops once, over any element type, against an unchanging list.
- The executor's per-job lock and health records: one loop runs all ticks in sequence, so the lock is never contended.
- The status fields outside the project list, and the result-status update no caller uses.
- Job names: normalisation happens before hashing, so distinct projects can share one; the model looks jobs up by project.
- Kubernetes and HTTP clients, secrets, pod logs and their parsing, metrics export, durations as text, OAuth and sessions, webhook payload checks, job visibility and the Helm charts.
