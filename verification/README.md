# HyperCDR protocols in Dafny

HyperCDR is a disaster-recovery control plane: a platform keeps tasks, protection plans and restore
points in a database, and agents in remote clusters carry the tasks out and report back. This project
models the parts of it in which something can go wrong *between* operations, and proves what every run
keeps.

| file | what it models |
|---|---|
| `TaskStore.dfy`, `AgentMessages.dfy`, `AgentRouter.dfy`, `AgentRuns.dfy` | the task table, one function per agent message, the message loop as a class proved against those functions, and what holds over whole runs of messages |
| `MessageEffects.dfy` | what each message writes, field by field, and when it is ignored |
| `StoreRaces.dfy` | the same handlers taken apart into store operations, interleaved in any way |
| `CleanupRun.dfy` | source and target agents finishing one cleanup run concurrently |
| `Retention.dfy` | one retention pass: stable sort and in-place compaction of one array, and the claim |
| `TaskEvents.dfy` | de-duplicated Velero observations |
| `Registration.dfy` | direct-registration sessions: request handlers, timers, lazy cleanup, janitor, restarts |
| `EnvFile.dfy`, `Upgrader.dfy` | parsing and printing `.env`, and the upgrade with its rollback |
| `ProgressWriter.dfy` | the incremental line splitter of the registration executor |
| `Versions.dfy`, `Images.dfy` | the order of release versions, and image references |
| `Unregister.dfy` | the unregister audit, relationship cleanup, and the workflow among other requests that save and delete plans |
| `Migration.dfy` | community migration as a state machine, with requests one at a time and overlapping |
| `Text.dfy` | the string functions the code calls, line splitting and sorting |

Code that computes a value is a function; code that changes things is a class or a method with loops,
proved against a function or a property of the old and new state. Protocols shared by several actors
are interleavings of atomic steps: a `Run` over any sequence of steps, an invariant that every step
keeps, and the promises that follow from it.

## What the proofs found

- `writeEnv` ignores the result of every `Fprintf`. The file it renames into place is the
  configuration if and only if no line was cut short (`Upgrader.RenamedWholeIff`); on a full disk it
  can be empty (`Upgrader.FullDiskEmpties`). Everything else about the upgrade holds for whole files
  and is stated for them.
- The retention pass selects a point left in `pending_delete`, or in `deleting` by a cleanup task that
  went silent, but the store refuses to claim such a point and claims all or nothing: one of them
  blocks the whole pass (`Retention.LeftoverBlocksThePass`; `Retention.ClaimsIff` is the exact
  condition).
- A repeated completion with incomplete measurements asks to reopen a finished backup; only the
  store's rule that a completed row keeps its status prevents it
  (`AgentRuns.UnfrozenCompletionReopens`). All other messages are turned away by the handlers alone.
- `fmt.Sprint` of a missing resource version is `<nil>`, not empty, so the phase of two Velero payloads
  without one is never compared (`TaskEvents.PhaseIgnoredWithoutResourceVersion`).
- Through a version that names no edition, offered upgrades can go round in a circle
  (`Versions.UnrecognisedCycle`). They can exactly when the numbers of such a version lie between those
  of a prefixed release and of a legacy build of one edition (`Versions.CycleIff`). Version numbers are scanned in
  64-bit arithmetic that wraps; `Versions.PrintedScansBackIff` says exactly when that is harmless.
- Splitting an image with both a tag and a digest leaves the tag in the repository
  (`Images.SplitRenders`). Pinning removes the tag, so pinning first is safe (`Images.PinThenSplit`).
- Two removers of a session directory do so while its registration task is still active: the start
  handler when the executor cannot be started (`Registration.Sessions.StartLaunch`), and the executor
  itself, which removes the directory after the installer has ended and before it writes the end of the
  task (`Registration.ExecutorRemovesUnderOwner`). No other remover does.
- A plan that another request saves after the unregister worker has listed the plans is not removed: the
  uninstall goes out while the plan names the cluster (`Unregister.PlanSavedDuringUnregister`). That is
  the only way it can happen (`Unregister.NamedAfterUninstall`).
- Migration handlers hold no lock between their guard and their write. A rollback in between leaves a
  committed session that was rolled back since its freeze (`Migration.RollbackBetweenCheckAndCommit`), and
  a commit that nobody overlaps inherits the fault of an overlapped handover
  (`Migration.RollbackBetweenCheckAndHandover`). `Migration.OverlappingCommitIff` is the exact condition.
- Freezing and rolling back a migration look at no state, so a committed session can be rolled back. A
  committed session keeps its freeze flag but no longer blocks changes, although the commit answer
  announces a read-only platform (`Migration.Migrations.BlockedIff`).
- In the combined layout the two image keys are one, and the switch leaves it at the frontend image.

## Assumptions

- The store is modelled from its own code where the protocol depends on it: a completed row keeps
  status and error, a completed row stays completed, an explicit nil overwrites a payload key, an empty
  status leaves the status alone, a backup being published is not finished by anything but success, and
  the publication of a result is one transaction. List calls return the matching rows.
- The messages of one connection are handled one at a time, and each handler is one step of the message
  model. Where handlers overlap and that matters (the race of completion and force stop, cleanup runs,
  registration sessions, unregister, migration) the steps are the single store, map and file-system
  operations.
- The source cluster of a protection plan cannot be changed and plan ids are not used twice, as the store
  sees to.
- One API process is active at a time, random session ids are not drawn twice, the clock does not go
  back, and the expiry of a durable registration task is the one its start handler wrote.
- A rename replaces `.env` as a whole for every process that survives. Losing power before the disk is
  synchronised is not modelled.
- The JSON encodings of a projected item and of a progress state are injective.
- Outcomes of docker, kubectl, registries, health checks, the network and object storage are parameters
  that range over success and failure; `RetentionSelections` is an arbitrary set of points.
- A plan's target does not change while a cleanup run of its plan is under way, and tasks of one run
  have a cleanup mode of source or target.

## Model

| member | source | states |
|---|---|---|
| `TaskStore.UpdateRow` | backend/internal/store/postgres_tasks.go:346-449 | A row update never moves the task to another cluster, plan or kind, never removes the result or the completion stamp, and leaves a completed row's status alone. |
| `TaskStore.UpdateTask` | backend/internal/store/postgres_tasks.go:346-449 | Only the named row changes, by the row rule; no restore point does. |
| `TaskStore.RemovePlan` | backend/internal/store/postgres_protection.go:567-684 | Exactly the plan's tasks and their restore points go; everything else stays as it was. |
| `AgentMessages.AdaptedMetricsCompleteIff` | backend/internal/httpserver/backup_execution.go:45-67 | Without metrics of its own, a completion counts as fully measured exactly when every volume's increment is known and the byte counts are present, positive in total and not negative. |
| `AgentRouter.Router.FindTaskById` | backend/internal/httpserver/backup_events.go:531-545 | Finds the row of that id exactly if it belongs to that cluster. |
| `AgentRouter.Router.UpdateTaskStatus` | backend/internal/store/postgres_tasks.go:346-449 | The step-by-step update refines the update function, reservations included. |
| `AgentRouter.Router.OnAccepted` | backend/internal/httpserver/agent_messages.go:243-271 | The accepted branch refines its message function. |
| `AgentRouter.Router.OnProgress` | backend/internal/httpserver/agent_messages.go:272-333 | The progress branch, with its guards in order, refines its message function. |
| `AgentRouter.Router.OnVeleroEvent` | backend/internal/httpserver/backup_events.go:19-65 | The Velero-event branch refines its message function: an observation never changes a status. |
| `AgentRouter.Router.ObserveInventoryBackups` | backend/internal/httpserver/backup_execution.go:12-43 | The loop over listed backups refines the fold of single observations. |
| `AgentRouter.Router.FinishBackupCancelTask` | backend/internal/httpserver/backup_events.go:547-613 | The completed force stop refines its message function on both the backup and the cancel task. |
| `AgentRouter.Router.MarkBackupCancelFailed` | backend/internal/httpserver/backup_events.go:615-648 | A failed force stop lets exactly a still stoppable backup of that cluster run on. |
| `AgentRouter.Router.AcceptBackupCompletion` | backend/internal/httpserver/backup_execution.go:69-119 | A backup completion refines its message function: refused, finalizing, pending or published. |
| `AgentRouter.Router.OnCompleted` | backend/internal/httpserver/agent_messages.go:358-555 | The completed branch refines its message function for every kind of task. |
| `AgentRouter.Router.FinishOther` | backend/internal/httpserver/agent_messages.go:458-555 | The general completion and its follow-up by kind refine their function. |
| `AgentRouter.Router.OnFailed` | backend/internal/httpserver/agent_messages.go:556-651 | The failed branch refines its message function. |
| `AgentRouter.Router.CompleteUpgradesAfterHeartbeat` | backend/internal/httpserver/cluster_handlers.go:319-376 | The loops complete exactly the open upgrade tasks of the cluster that the heartbeat verifies. |
| `AgentRouter.Router.ReadAgentMessages` | backend/internal/httpserver/agent_messages.go:15-656 | Reading a stream of heartbeats, inventories, Velero events and task messages leaves the database that the run of message functions leaves, so every statement about runs is one about the loop. |
| `MessageEffects.FailureIgnored` | backend/internal/httpserver/agent_messages.go:565-593 | A failure without a task id, of an unknown task, under another command, or of a backup with a result or a force stop changes nothing. |
| `MessageEffects.FailureEnds` | backend/internal/httpserver/agent_messages.go:594-651 | Any other failure of a task leaves it failed and stamped with the agent's error, and gives its slot back; if its data is being published it is finalizing; if it was stamped already it keeps how it ended; no other row changes. |
| `MessageEffects.RetentionFailureWarns` | backend/internal/httpserver/backup_events.go:1365-1418 | A failed retention cleanup also puts its warning on the open backup that triggered it, and writes nothing else. |
| `MessageEffects.StopFailureResumes` | backend/internal/httpserver/backup_events.go:615-648 | A failed force stop also sets its backup running again exactly if that waits to be stopped, and writes nothing else. |
| `MessageEffects.CompletionIgnored` | backend/internal/httpserver/agent_messages.go:358-403 | A completion without a task id or of an unknown task changes nothing. |
| `MessageEffects.CompletionEnds` | backend/internal/httpserver/agent_messages.go:458-555 | A completion of a plain task leaves it succeeded, stamped and without error or running sample, and changes no other row. |
| `MessageEffects.UnregisterCompletionFails` | backend/internal/httpserver/agent_messages.go:458-555 | A completed unregister whose records could not be removed is failed. |
| `MessageEffects.RetentionCompletionClears` | backend/internal/httpserver/backup_events.go:1223-1240 | A completed retention cleanup also clears the warning of the open backup that triggered it. |
| `MessageEffects.PlanRemovalLeavesOthers` | backend/internal/httpserver/backup_events.go:1242-1300 | The completion that removes a plan leaves exactly the rows and points of the others, unchanged. |
| `MessageEffects.UpgradeCompletionWaits` | backend/internal/httpserver/agent_messages.go:430-457 | A completed upgrade runs on, unstamped, until the new component reports. |
| `MessageEffects.CapacityCompletion` | backend/internal/httpserver/agent_messages.go:358-403 | A capacity measurement succeeds exactly if it was saved, under its own command, and had neither failed nor been cancelled. |
| `MessageEffects.StopCompletion` | backend/internal/httpserver/backup_events.go:547-613 | A completed force stop succeeds; its open backup ends canceled and stamped, or finalizing if its data is being published; nothing else changes. |
| `MessageEffects.MetricsAre` | backend/internal/httpserver/backup_execution.go:45-67 | Own metrics count as they are; adapted ones hold the total as the size and the uploaded bytes as what is new; and when metrics are complete. |
| `MessageEffects.BackupCompletionWaits` | backend/internal/httpserver/backup_execution.go:69-95 | A completion that is not the backup's, or of a backup being stopped, changes nothing; one without complete measurements leaves it finalizing with that error. |
| `MessageEffects.PublicationWaits` | backend/internal/httpserver/backup_execution.go:96-113 | While a point has to be replaced first, the result is recorded, the backup is finalizing and its slot holds ready data. |
| `MessageEffects.PublicationEnds` | backend/internal/httpserver/backup_execution.go:96-119 | Otherwise the row holds the result, succeeded and stamped, the point names the backup, and the slot is used. |
| `MessageEffects.ActiveOrTerminal` | backend/internal/httpserver/recovery_handlers.go:454-461 | Every status the platform knows is active or terminal, and none is both. |
| `MessageEffects.AcceptedEffect` | backend/internal/httpserver/agent_messages.go:243-271 | An accepted message marks the task accepted exactly if it is the cluster's, under its command, open and without a result; otherwise nothing changes. |
| `MessageEffects.ProgressEffect` | backend/internal/httpserver/agent_messages.go:272-333 | A progress message writes status, name and sample exactly if the task is open and active, the status is, the command fits, it is no finalizing backup and the sample is newer, by time or by sequence; readiness drops the sample. |
| `MessageEffects.VeleroEventEffect` | backend/internal/httpserver/backup_events.go:19-65 | A Velero event clears the error of the open backup it fits by plan, name, command and label, and changes nothing else. |
| `MessageEffects.InventoryEffect` | backend/internal/httpserver/backup_execution.go:12-43 | An inventory clears the error of exactly the open backups it lists, by label, plan and name. |
| `MessageEffects.HeartbeatEffect` | backend/internal/httpserver/cluster_handlers.go:319-376 | A heartbeat ends exactly the waiting upgrades of the cluster that it verifies, with success. |
| `AgentRuns.HandleSpares` | backend/internal/httpserver/agent_messages.go:243-651 | No message changes any field of a completed task's row or adds a restore point for it, unless it completes, fails or verifies that very task; without the store's freeze rule only the error of a retention trigger can change. |
| `AgentRuns.HandleStopped` | backend/internal/httpserver/agent_messages.go:404-429 | One message of any kind leaves a canceled, stamped backup canceled and stamped and publishes nothing for it. |
| `AgentRuns.ForceStopIsFinal` | backend/internal/httpserver/backup_events.go:547-653 | Over every run of messages of all agents, a backup canceled with completion stamped stays so and gets no restore point, with or without the store's freeze rule. |
| `AgentRuns.HandleRecorded` | backend/internal/httpserver/agent_messages.go:575-593 | One message keeps a recorded, stamped backup succeeded; the freeze rule is needed only for a repeated completion. |
| `AgentRuns.ResultIsFinal` | backend/internal/httpserver/agent_messages.go:258-297 | Over every run, a backup whose result is recorded and stamped keeps its status. |
| `AgentRuns.FailureIsFinal` | backend/internal/httpserver/agent_messages.go:556-602 | Over every run, a backup that failed with completion stamped stays failed and gets no restore point. |
| `AgentRuns.UnfrozenCompletionReopens` | backend/internal/httpserver/backup_execution.go:89-95 | For every recorded backup, repeating a completion without complete measurements writes `finalizing` if the store does not freeze completed rows, and changes nothing about the status if it does. |
| `AgentRuns.RunKeepsPointsFinal` | backend/internal/store/postgres_restore_points.go:21-269 | Over every run, each published restore point belongs to a backup that succeeded and is stamped. |
| `AgentRuns.FirstStampWins` | backend/internal/httpserver/backup_events.go:577-626 | In a race between completion and force stop, whichever is stamped first after any run wins for every continuation: a stopped backup never has a point, a published one is never canceled. |
| `AgentRuns.PublishingOutlivesForceStop` | backend/internal/store/postgres_tasks.go:346-449 | A force stop that reaches a backup whose data is being published leaves it open and finalizing. |
| `AgentRuns.PublishedIff` | backend/internal/httpserver/backup_execution.go:69-119 | A completion gives an open backup that nobody is stopping its restore point, result and stamp exactly when it fits the backup, is fully measured, and the store has room. |
| `AgentRuns.RepeatedCompletionIsIdle` | backend/internal/store/postgres_restore_points.go:21-269 | The completion of a published backup changes nothing when it comes again, whatever the store answers then. |
| `AgentRuns.ForceStopTakes` | backend/internal/httpserver/backup_events.go:547-613 | A force stop that completes for an open backup not being published leaves it canceled, stamped and marked as stopped. |
| `AgentRuns.LatestSampleStored` | backend/internal/httpserver/agent_messages.go:659-667 | For an open restore, drill or takeover, the stored size sample is the latest observed one, for every delivery order. |
| `AgentRuns.DeliveryOrderIrrelevant` | backend/internal/httpserver/agent_messages.go:294-310 | Two delivery orders of the same samples, with observation times that tell them apart, store the same sample. |
| `AgentRuns.EndingDropsSample` | backend/internal/httpserver/backup_events.go:400-402 | Completing or failing a restore, drill or takeover stamps it and drops its running sample. |
| `AgentRuns.SampleNeverReturns` | backend/internal/httpserver/agent_messages.go:278-310 | Over every run, a dropped running sample does not come back. |
| `StoreRaces.FirstStampWinsInterleaved` | backend/internal/store/postgres_tasks.go:346-449 | In every interleaving of single store operations with any arguments, so with reads as stale as can be: a backup stamped canceled stays so and never has a point, and one that has a point has succeeded for good. |
| `StoreRaces.WriteOrderDecides` | backend/internal/httpserver/backup_events.go:547-613 | A completion and a force stop that both found the backup open: the one that writes first decides, whatever comes between the writes. |
| `StoreRaces.ResultMeansSuccess` | backend/internal/store/postgres_restore_points.go:21-269 | In every interleaving of the handlers' store operations a backup with a result and a stamp has succeeded, and stays so. |
| `StoreRaces.RunResultMeansSuccess` | backend/internal/httpserver/agent_messages.go:15-656 | Over every run of messages: a stamped backup succeeded, failed or was canceled, with a result it succeeded, and a result without a stamp is being published. |
| `StoreRaces.HandleOps` | backend/internal/httpserver/agent_messages.go:243-651 | Every message is handled by store operations of this kind. |
| `StoreRaces.RunOps` | backend/internal/httpserver/agent_messages.go:15-656 | So is every run of messages. |
| `CleanupRun.ScanRun` | backend/internal/httpserver/backup_events.go:1302-1349 | The early-exit scan answers true exactly when every task of the run succeeded, with a source task and, when expected, a target task among them. |
| `CleanupRun.TasksComplete` | backend/internal/httpserver/backup_events.go:1302-1349 | Decides by the run id, and without one by the newest task of each mode. |
| `CleanupRun.Newest` | backend/internal/httpserver/backup_events.go:1324-1334 | The newest task of the plan in a mode: none of that mode is newer, and there is none only if the mode has no task. |
| `CleanupRun.ListingDecides` | backend/internal/httpserver/backup_events.go:1302-1349 | Every listing of the table, in any order, decides the completeness of a run with an id the same way. |
| `CleanupRun.CompleteStable` | backend/internal/httpserver/backup_events.go:1242-1300 | A complete run stays complete under every step but the removal itself. |
| `CleanupRun.CompletedBySuccess` | backend/internal/httpserver/backup_events.go:1242-1300 | Only the success of one of its tasks completes an incomplete run. |
| `CleanupRun.SuccessStartsHandler` | backend/internal/httpserver/backup_events.go:1242-1255 | A success that changed the table, of a task of the run, starts a completion handler for that run. |
| `CleanupRun.GoesOnLooking` | backend/internal/httpserver/backup_events.go:1257-1300 | While its run is complete and the plan is there, a handler under way neither gives up nor falls back to waiting, under any step that is no store error. |
| `CleanupRun.StepInv` | backend/internal/httpserver/backup_events.go:1242-1300 | Every step keeps: removers belong to complete runs, and while a complete run's records are there somebody is still going to look. |
| `CleanupRun.RunInv` | backend/internal/httpserver/backup_events.go:1083-1114 | The same over every interleaving of creations, completions, failures, handlers and rechecks. |
| `CleanupRun.RemovedOnlyWhenComplete` | backend/internal/httpserver/backup_events.go:1242-1349 | In every interleaving, records are removed for a run with an id only when every task of it succeeded, source and expected target present. |
| `CleanupRun.CompleteRunIsRemoved` | backend/internal/httpserver/backup_events.go:1083-1300 | If at any point all of a run's tasks have succeeded and the store does not err, then once handlers and rechecks have finished the records are gone, whatever earlier runs left. Which tasks a run has is `CleanupRun.RunHasItsTasks`. |
| `CleanupRun.RunHasItsTasks` | backend/internal/httpserver/backup_events.go:1083-1114 | In every interleaving, a run whose creation went through has one source task and, exactly if the plan has another target cluster, one target task. |
| `CleanupRun.CreationWrites` | backend/internal/httpserver/backup_events.go:1083-1114 | Beginning a run and creating its tasks adds an open source task and then, exactly if expected, an open target task, and nothing else. |
| `CleanupRun.TwoClusterRunEnds` | backend/internal/httpserver/backup_events.go:1083-1300 | From every start of a plan with another target cluster there is a run, from its beginning to the removal of the plan. |
| `CleanupRun.StampWrites` | backend/internal/store/postgres_tasks.go:346-449 | A failure stamps an open task failed, a success succeeded, and neither changes a stamped one or another row. |
| `CleanupRun.FailedRunNeverCompletes` | backend/internal/httpserver/backup_events.go:1302-1349 | In every continuation, a run with a failed task is not complete, so it removes nothing. |
| `CleanupRun.HandlerWrites` | backend/internal/httpserver/backup_events.go:1242-1300 | A handler stops if the plan is gone, goes to the removal exactly if the run is complete, waits once otherwise, and looks again after the wait. |
| `CleanupRun.CreationFailure` | backend/internal/httpserver/backup_events.go:1083-1114 | A creation that fails is given up; one that went through is not. |
| `CleanupRun.RemovalLeavesOthers` | backend/internal/store/postgres_protection.go:567-684 | The removal takes exactly the rows of the plan. |
| `CleanupRun.LegacyDecides` | backend/internal/httpserver/backup_events.go:1324-1347 | Without a run id the plan is removed exactly if the newest task of each expected mode, the first listed of equally new ones, succeeded. |
| `Retention.LiveTasks` | backend/internal/httpserver/backup_events.go:776-795 | Exactly the cleanup tasks that are active and were heard of in the last 35 minutes. |
| `Retention.CollectAvailable` | backend/internal/httpserver/backup_events.go:796-809 | Exactly the available, named points not owned by a live cleanup task, in listed order. |
| `Retention.SliceStable` | backend/internal/httpserver/backup_events.go:817-827 | The array is left as the stable newest-first sort of what it held. |
| `Retention.SinkLast` | backend/internal/httpserver/backup_events.go:817-827 | One insertion step: the element lands behind everything not older, the rest of the array is untouched. |
| `Retention.CompactInPlace` | backend/internal/httpserver/backup_events.go:828-836 | Writing the kept candidates over the array being read loses, repeats and reorders none of them and leaves the newest points alone. |
| `Retention.Select` | backend/internal/httpserver/backup_events.go:796-837 | The array code refines the selection function. |
| `Retention.StableSortOrders` | backend/internal/httpserver/backup_events.go:817-827 | The sort is newest first, by completion time or else creation time. |
| `Retention.StableSortPermutes` | backend/internal/httpserver/backup_events.go:817-827 | The sort is a permutation. |
| `Retention.RankIsPosition` | backend/internal/httpserver/backup_events.go:817-827 | Each point lands at its rank: the number of points that are newer, or equally old and listed earlier. |
| `Retention.RanksDiffer` | backend/internal/httpserver/backup_events.go:817-827 | Different points have different ranks, so the sort is the arrangement by rank. |
| `Retention.SelectionByRank` | backend/internal/httpserver/backup_events.go:810-837 | An available point is selected exactly if its rank is at or beyond the retention count and nothing protects it. |
| `Retention.SelectionKeepsNewest` | backend/internal/httpserver/backup_events.go:796-837 | If anything is selected, as many distinct unselected points as the retention count are no older than anything selected, and nothing selected belongs to a live cleanup task. |
| `Retention.ClaimsIff` | backend/internal/store/restore_point_quota.go:357-391 | The store lets the pass have its selection exactly when no available point whose rank is at or beyond the count is in use or already marked for deletion, unless it is protected. |
| `Retention.LeftoverBlocksThePass` | backend/internal/httpserver/backup_events.go:838-846 | For every plan keeping one of three points whose oldest was left pending: both older points are selected, the middle one could be claimed, and the pass is blocked. |
| `Retention.RestorePointStore.ClaimDeletion` | backend/internal/store/restore_point_quota.go:357-391 | All of the points become pending, or none does; all do exactly if all are claimable and the transaction commits; no other field changes. |
| `Retention.RestorePointStore.UpdateStates` | backend/internal/httpserver/backup_events.go:855-889 | Point by point: each chosen point whose write succeeds gets the state and, if one is given, the owning task, and nothing else of it or of any other point changes. |
| `Retention.AllOwned` | backend/internal/httpserver/backup_events.go:881-889 | If every write succeeds, the claimed points are all marked with the new task; `Retention.HandedAreNotCounted` says what that is for. |
| `Retention.RestorePointStore.Reconcile` | backend/internal/httpserver/backup_events.go:743-889 | One pass claims the whole selection exactly if the rules can be evaluated, nothing blocks and the claim commits, and nothing otherwise. Point by point: claimed points end `deleting` with the new task as owner where that write succeeded, and `pending_delete` with their old owner where it did not; all other fields and points are untouched. |
| `Retention.HandedAreNotCounted` | backend/internal/httpserver/backup_events.go:796-809 | The points a pass handed over are `deleting` with the new task as owner, and while that task lives no later pass counts them as available, however they are listed. |
| `Retention.LiveIff` | backend/internal/httpserver/backup_events.go:776-795 | A cleanup task is live exactly if it is active and started, or else was accepted, dispatched or created, less than 35 minutes ago. |
| `Retention.NeverSelected` | backend/internal/httpserver/backup_events.go:796-836 | Points kept by hand, by a drill, by a rule or for a replacement, unavailable or unnamed ones, and those of live tasks are never selected. |
| `Retention.LaterIsKeptLonger` | backend/internal/httpserver/backup_events.go:817-836 | Of two points that nothing protects, the later one, by completion or else creation time, is never selected without the other. |
| `TaskEvents.VolumeProgressState` | backend/internal/httpserver/backup_events.go:462-481 | The loop computes the encoding of the counters with the sorted encodings of the projected items. |
| `TaskEvents.StateEqualIff` | backend/internal/httpserver/backup_events.go:462-481 | Two reports have equal state exactly when their counters agree and their projected items are equal as multisets. |
| `TaskEvents.CountersAgreeIff` | backend/internal/httpserver/backup_events.go:462-466 | Which counters decide, by name. |
| `TaskEvents.ItemsAgreeIff` | backend/internal/httpserver/backup_events.go:468-473 | Which fields of an item decide, by name. |
| `TaskEvents.ItemAt` | backend/internal/httpserver/backup_events.go:467-476 | Every listed item counts, in its place. |
| `TaskEvents.SameObservationIff` | backend/internal/httpserver/backup_events.go:424-460 | Given injective encodings, when two payloads are the same observation: name, kind, volume state, and resource version or else phase; comparing the byte counters again decides nothing. |
| `TaskEvents.VolumeOfIs` | backend/internal/httpserver/backup_events.go:436-438 | The volume progress is the object under its key, and empty otherwise. |
| `TaskEvents.SameIsSymmetric` | backend/internal/httpserver/backup_events.go:424-460 | Which of two payloads came first does not matter. |
| `TaskEvents.PhaseIgnoredWithoutResourceVersion` | backend/internal/httpserver/backup_events.go:424-460 | Without resource versions, payloads are the same exactly when name, kind and volume state agree, whatever the phases. |
| `TaskEvents.TaskEventLog.AddIfChanged` | backend/internal/httpserver/backup_events.go:67-86 | The event is appended exactly unless the readable log already records the observation, and a log without repetitions stays so. |
| `TaskEvents.TaskEventLog.AddAll` | backend/internal/httpserver/backup_events.go:67-86 | Over every run of writes the log has no two entries that repeat each other, only grows, and records every input itself or by an earlier equal one. |
| `Registration.Sessions.UploadDir` | backend/internal/httpserver/cce_registration.go:146-157 | A new directory appears under a new id and owns nothing. |
| `Registration.Sessions.UploadRegister` | backend/internal/httpserver/cce_registration.go:163-168 | The session enters the map with its expiry and a timer. |
| `Registration.Sessions.LazyCleanup` | backend/internal/httpserver/cce_registration.go:489-496 | The loop takes out exactly the expired sessions, from the map and from the disk, with one removal on record for each directory that was there. |
| `Registration.Sessions.TimerFires` | backend/internal/httpserver/cce_registration.go:581-603 | A timer takes its session out only if the entry as it is now has expired: an extended session survives its first timer. |
| `Registration.Sessions.TimerRemoves` | backend/internal/httpserver/cce_registration.go:600-602 | Outside the mutex, the timer removes that directory and nothing else. |
| `Registration.Sessions.StartBegin` | backend/internal/httpserver/cce_registration.go:306-319 | After exactly that lazy cleanup, an allowed, unexpired session is extended beyond its task's deadline, with a timer for it, before the task exists; no other session changes. |
| `Registration.Sessions.Extend` | backend/internal/httpserver/cce_registration.go:313-319 | The entry's new expiry, the new timer and the coming task's deadline are the same instant. |
| `Registration.Sessions.StartWrite` | backend/internal/httpserver/cce_registration.go:320-356 | Goes on exactly if no task has the session, its directory is there and lookups and writes work. |
| `Registration.Sessions.StartCreate` | backend/internal/httpserver/cce_registration.go:357-365 | The task appears with the extended expiry as its credential deadline, or not at all. |
| `Registration.Sessions.StartLaunch` | backend/internal/httpserver/cce_registration.go:366-367 | On an executor that does not start the directory goes, and the record says whether its task still owned it. |
| `Registration.Sessions.StartForget` | backend/internal/httpserver/cce_registration.go:368-370 | The session leaves the map, its directory being gone already. |
| `Registration.Sessions.StartFail` | backend/internal/httpserver/cce_registration.go:371-372 | The task is failed, if that can be saved. |
| `Registration.Sessions.ExecutorClaims` | backend/cmd/cluster-registration-executor/main.go:203-221 | A queued task is claimed. |
| `Registration.Sessions.ExecutorRemoves` | backend/cmd/cluster-registration-executor/main.go:282-284 | The directory of a claimed task goes, and the record says whether the task still owned it. |
| `Registration.ExecutorRemovesUnderOwner` | backend/cmd/cluster-registration-executor/main.go:282-305 | For every session and task there is a run, from upload to the end of the installer, in which the executor removes the directory of an active task with time left. |
| `Registration.Sessions.CancelLook` | backend/internal/httpserver/task_handlers.go:234-256 | A cancel request goes on with a task it found active and queued. |
| `Registration.Sessions.CancelMark` | backend/internal/httpserver/task_handlers.go:257-258 | The task is over, whatever became of it since it was read, or the request does nothing more. |
| `Registration.Sessions.CancelUnlist` | backend/internal/httpserver/task_handlers.go:259-265 | The session leaves the map, outside the request mutex, and the request remembers whether it was there. |
| `Registration.Sessions.CancelRemove` | backend/internal/httpserver/task_handlers.go:266-268 | The directory goes exactly if the map had the session; nobody owns it, its only task being over. |
| `Registration.Sessions.DeleteBegin` | backend/internal/httpserver/cce_registration.go:461-472 | Goes on exactly if the session is in the map and belongs to the caller. |
| `Registration.Sessions.DeleteCheck` | backend/internal/httpserver/cce_registration.go:473-481 | Deleting goes on exactly if no task of the session is active. |
| `Registration.Sessions.DeleteForget` | backend/internal/httpserver/cce_registration.go:482-484 | The session leaves the map. |
| `Registration.Sessions.DeleteRemove` | backend/internal/httpserver/cce_registration.go:485-486 | Its directory goes and no other. |
| `Registration.Sessions.JanitorReadDirs` | backend/internal/httpserver/cce_registration.go:502-514 | A pass takes the directories there are, at a tick that may lie behind the clock. |
| `Registration.Sessions.JanitorListTasks` | backend/internal/httpserver/cce_registration.go:517-521 | The janitor sees exactly the tasks active at that moment. |
| `Registration.Sessions.JanitorSettle` | backend/internal/httpserver/cce_registration.go:522-535 | A listed task shields its session until its deadline, or is failed, or shields it a minute longer if failing it could not be saved. |
| `Registration.Sessions.JanitorVisit` | backend/internal/httpserver/cce_registration.go:537-559 | Removes a directory exactly if it is unshielded, not in the map with time left, and older than the upload lifetime. |
| `Registration.Sessions.Restart` | backend/internal/httpserver/cce_registration.go:498-502 | Memory is lost; directories and tasks are not. |
| `Registration.Sessions.Perform` | backend/internal/httpserver/cce_registration.go:143-603 | Every step of a run does what it is for when its time has come: each of uploads, timers, cleanups, janitor steps, executor steps, cancels and requests has its effect. |
| `Registration.Sessions.ExpiredIsFree` | backend/internal/httpserver/cce_registration.go:489-496 | In every reachable state a session whose map entry has expired is owned by no active task with time left. |
| `Registration.Sessions.UnshieldedIsFree` | backend/internal/httpserver/cce_registration.go:537-559 | In every reachable state what the janitor does not spare is owned by nobody, even if a task appeared after it read the task list. |
| `Registration.Sessions.NewOwnerKnown` | backend/internal/httpserver/cce_registration.go:313-319 | A task about to be created with time left has its session in the map until its deadline, and no timer is about to remove its directory. |
| `Registration.Unlist` | backend/internal/httpserver/cce_registration.go:489-496 | Taking a session nobody owns out of the map keeps every other part of the invariant. |
| `Registration.TaskProgress` | backend/internal/httpserver/cce_registration.go:532-534 | The progress or end of tasks makes no owner and keeps every part of the invariant. |
| `Registration.EndedIsFree` | backend/internal/httpserver/cce_registration.go:320-328 | A session has at most one task, so when that is over nobody owns its directory. |
| `Registration.Sessions.Run` | backend/internal/httpserver/cce_registration.go:461-603 | In every interleaving, none of timer, lazy cleanup, janitor, delete and cancel removes a directory while an active task with time left owns it; one removed under its owner is removed by the executor or the start handler and was a task's; and no directory disappears without a removal on record. |
| `EnvFile.ReadLine` | backend/cmd/platform-upgrader/main.go:296-304 | A line is read as the entry it says: trimmed, comments and lines without `=` skipped, cut at the first `=`. |
| `EnvFile.ReadEnv` | backend/cmd/platform-upgrader/main.go:289-307 | The scanner loop computes the map of the text, or reports a line that does not fit the scanner's buffer. |
| `EnvFile.EntryIff` | backend/cmd/platform-upgrader/main.go:296-304 | A line binds a key to a value exactly when, trimmed, it is the key, an equals sign and the value, the key has no equals sign, and it is no comment. |
| `EnvFile.CarriageReturnIgnored` | backend/cmd/platform-upgrader/main.go:296-304 | One carriage return at the end of a line is not part of it. |
| `EnvFile.FinalNewlineOptional` | backend/cmd/platform-upgrader/main.go:296-304 | Every line is read, the last one also without a newline after it. |
| `EnvFile.TooLongIff` | backend/cmd/platform-upgrader/main.go:296-307 | Reading fails exactly when some line has 65536 bytes or more in UTF-8. |
| `EnvFile.LastEntryWins` | backend/cmd/platform-upgrader/main.go:289-307 | A key is bound exactly when some line binds it, to the value of the last such line. |
| `EnvFile.CollectKeys` | backend/cmd/platform-upgrader/main.go:315-319 | Whatever the iteration order of the map, the sorted keys are the same. |
| `EnvFile.EmitLines` | backend/cmd/platform-upgrader/main.go:319-324 | One line for each key, in sorted order, with its value. |
| `EnvFile.ParsePrintable` | backend/cmd/platform-upgrader/main.go:289-307 | Every map readEnv returns can be written and read again. |
| `EnvFile.RoundTripIff` | backend/cmd/platform-upgrader/main.go:289-328 | Writing a map and reading it back gives the map exactly when every entry is printable. |
| `EnvFile.ReadWriteRead` | backend/cmd/platform-upgrader/main.go:289-328 | For every accepted text, reading, writing with sorted keys and reading again gives the same map. |
| `Upgrader.Deployment.WriteEnv` | backend/cmd/platform-upgrader/main.go:309-328 | `.env` changes only by the final rename. |
| `Upgrader.RenamedWholeIff` | backend/cmd/platform-upgrader/main.go:319-328 | The renamed file is the configuration exactly when no line was cut short. |
| `Upgrader.FullDiskEmpties` | backend/cmd/platform-upgrader/main.go:319-328 | For every configuration some failing writes leave an empty file that reads as no variables. |
| `Upgrader.RollbackRestoresLookups` | backend/cmd/platform-upgrader/main.go:161-180 | Rolling back restores every lookup, whatever was switched and whichever keys coincide. |
| `Upgrader.Deployment.Precheck` | backend/cmd/platform-upgrader/main.go:94-160 | Gets to the switch exactly if every image is known, the release is complete, and the dump and all pulls work; `.env` is not touched. |
| `Upgrader.Deployment.SwitchServices` | backend/cmd/platform-upgrader/main.go:181-213 | Succeeds exactly if every restart, health wait and activation does; `.env` is not touched. |
| `Upgrader.Deployment.Run` | backend/cmd/platform-upgrader/main.go:75-219 | For every outcome of every operation: `.env` is first the file found, then the switched one, then the restored one and nothing else at any point; the verdict says which it ended as. |
| `Upgrader.PhaseIff` | backend/cmd/platform-upgrader/main.go:75-213 | A run switches if and only if the file can be read, the named variables and the release's images are there, and dump, pulls and write work; it stays switched if and only if every restart, health wait and activation works too; untouched means unchanged. |
| `Upgrader.SplitSwitchHolds` | backend/cmd/platform-upgrader/main.go:161-166 | A successful run in the split layout leaves a file that reads back with PLATFORM_API_IMAGE and PLATFORM_FRONTEND_IMAGE at the job's images, the upgrader and executor at the release's, RELEASE_VERSION at the target, and every other lookup as before. |
| `Upgrader.CombinedSwitchHolds` | backend/cmd/platform-upgrader/main.go:68-166 | The same in the combined layout, with PLATFORM_IMAGE at the job's frontend image. |
| `Upgrader.WholeAtEveryPoint` | backend/cmd/platform-upgrader/main.go:161-213 | With no write cut short, `.env` is at every point wholly the file found, the switched or the restored configuration. |
| `Upgrader.RollbackLeavesOldLookups` | backend/cmd/platform-upgrader/main.go:68-180 | A run that fails after the switch and whose rollback is written leaves a file that reads back with every lookup at its old value, in both layouts. |
| `ProgressWriter.RegistrationProgressWriter.Write` | backend/cmd/cluster-registration-executor/main.go:371-385 | After every chunk the writer is where splitting the whole buffer at once would put it, and the buffer is the exact concatenation. |
| `ProgressWriter.RegistrationProgressWriter.Observe` | backend/cmd/cluster-registration-executor/main.go:387-399 | One more line is observed, and its new stages and no others are reported. |
| `ProgressWriter.RegistrationProgressWriter.Bytes` | backend/cmd/cluster-registration-executor/main.go:401-405 | The snapshot is the observed lines with their newlines and the pending fragment. |
| `ProgressWriter.WriteAll` | backend/cmd/cluster-registration-executor/main.go:362-405 | For every way of cutting the output into chunks, observed lines and reported stages are those of the whole text, and the pending fragment has no newline. |
| `ProgressWriter.ReportExactly` | backend/cmd/cluster-registration-executor/main.go:387-399 | A stage is reported exactly when some complete line holds its needle. |
| `ProgressWriter.ReportOrder` | backend/cmd/cluster-registration-executor/main.go:387-399 | Reports come in the order of the first lines that hold their needles, the table breaking ties. |
| `ProgressWriter.ReportedOnce` | backend/cmd/cluster-registration-executor/main.go:387-399 | No stage is reported twice. |
| `ProgressWriter.StagesDistinct` | backend/cmd/cluster-registration-executor/main.go:348-360 | No two stages of the table share a reason. |
| `Text.SplitAppend` | backend/cmd/cluster-registration-executor/main.go:371-385 | Splitting in two steps with the fragment carried over is splitting at once. |
| `Text.SplitUnique` | backend/cmd/cluster-registration-executor/main.go:371-385 | The split is the only one into newline-free lines and a newline-free rest. |
| `Text.SplitLosesNothing` | backend/cmd/cluster-registration-executor/main.go:371-385 | Lines and rest spell the text. |
| `Text.TrimSpaceOf` | backend/cmd/platform-upgrader/main.go:298-298 | Trimming takes away exactly the white space around. |
| `Text.AtMostIff` | backend/cmd/platform-upgrader/main.go:319-319 | Keys are sorted as in a dictionary: the first difference decides, and a string comes before those it begins. |
| `Versions.ScanNumber` | backend/internal/httpserver/cluster_handlers.go:274-289 | Reads the maximal run of digits and returns the number it spells, reduced to a 64-bit word. |
| `Versions.NumericVersionParts` | backend/internal/httpserver/cluster_handlers.go:274-289 | The scanner returns the numbers of all maximal digit runs in order. |
| `Versions.CompareNumericVersions` | backend/internal/httpserver/cluster_handlers.go:235-272 | The loop over zero-padded parts refines the comparison, editions and eras first. |
| `Versions.CompareFromMeans` | backend/internal/httpserver/cluster_handlers.go:249-272 | The sign is that of the first difference of the zero-padded parts, and zero exactly if they agree everywhere. |
| `Versions.ReleaseHasParts` | backend/internal/httpserver/cluster_handlers.go:1568-1584 | Every recognised version holds a number, so the comparison of recognised ones never gives up. |
| `Versions.CompareTotal` | backend/internal/httpserver/cluster_handlers.go:235-272 | Over releases of one edition comparison is total, antisymmetric and reflexive, with the prefixed era on top. |
| `Versions.CompareTransitive` | backend/internal/httpserver/cluster_handlers.go:235-272 | It is transitive, and level ends mean level steps. |
| `Versions.ChainNeverDecreases` | backend/internal/httpserver/cluster_handlers.go:198-209 | Every chain of offered upgrades keeps its edition and never goes down; if it ends level, each step was a rebuild with another image. |
| `Versions.NoUpgradeCycle` | backend/internal/httpserver/cluster_handlers.go:198-209 | A chain that returns to its start had an image mismatch at every step. |
| `Versions.CycleIff` | backend/internal/httpserver/cluster_handlers.go:198-209 | For every set of versions: upgrades offered without an image mismatch can go round in a circle through it if and only if the numbers of an unrecognised one lie between those of a prefixed release and of a legacy build of one edition. |
| `Versions.CycleStraddled` | backend/internal/httpserver/cluster_handlers.go:198-272 | Every circle, however long and through whichever editions, holds three such versions. |
| `Versions.StepRises` | backend/internal/httpserver/cluster_handlers.go:198-272 | Every offered step but the change of era strictly raises the numbers. |
| `Versions.UnrecognisedCycle` | backend/internal/httpserver/cluster_handlers.go:198-209 | Such versions exist, and the circle through them. |
| `Versions.PrintedRecognised` | backend/internal/httpserver/cluster_handlers.go:1565-1584 | Every printed `ce-vA.B.C` or `ee-vA.B.C` is recognised with its edition in the prefixed era. |
| `Versions.PrintedParts` | backend/internal/httpserver/cluster_handlers.go:274-289 | It scans to its three numbers, each reduced to a word. |
| `Versions.PrintedScansBackIff` | backend/internal/httpserver/cluster_handlers.go:274-289 | It scans back to exactly its triple if and only if each part fits in an int. |
| `Versions.PrintedOrder` | backend/internal/httpserver/cluster_handlers.go:235-272 | Printed releases of one edition compare as their triples do. |
| `Versions.PrintedOfferedIff` | backend/internal/httpserver/cluster_handlers.go:198-209 | A printed release is offered over another of its edition exactly if its triple is later, or the same and the image differs. |
| `Versions.OfferedBeyondNumbers` | backend/internal/httpserver/cluster_handlers.go:198-209 | No upgrade crosses editions; without numbers to compare only the image decides. |
| `Versions.PrefixedIff` | backend/internal/httpserver/cluster_handlers.go:1565-1576 | A version is recognised as a release of the prefixed era exactly when, trimmed, it is the printed form of some triple. |
| `Versions.LegacyRecognised` | backend/internal/httpserver/cluster_handlers.go:1568-1584 | Legacy builds are recognised with their edition in the old era. |
| `Versions.PrefixedAboveLegacy` | backend/internal/httpserver/cluster_handlers.go:198-209 | Every prefixed release is offered over every legacy build of its edition and never the other way round, image mismatch or not. |
| `Images.PinRenders` | backend/internal/httpserver/cluster_handlers.go:55-68 | Pinning replaces tag and digest by the new digest and touches nothing else, a port included. |
| `Images.SplitRenders` | backend/internal/httpserver/cluster_handlers.go:527-552 | Splitting gives the registry and, by digest, tag or `latest`, the rest; with both, the tag stays in the repository. |
| `Images.PinThenSplit` | backend/internal/httpserver/cluster_handlers.go:43-68 | Pin, then split: the original registry and repository with the digest as reference. |
| `Images.RepinForgets` | backend/internal/httpserver/cluster_handlers.go:55-68 | Pinning again equals pinning the original. |
| `Images.InvalidDigestPinsNothing` | backend/internal/httpserver/cluster_handlers.go:43-68 | With an invalid digest the trimmed image is returned. |
| `Images.ValidDigestIff` | backend/internal/httpserver/cluster_handlers.go:43-53 | A digest is valid exactly if it is `sha256:` and sixty-four lower-case hexadecimal digits. |
| `Images.RemainderIff` | backend/internal/httpserver/cluster_handlers.go:536-550 | What follows the registry splits at the last `@`, or else at the colon of a tag, or else not at all and means `latest`, for every text. |
| `Images.SplitIff` | backend/internal/httpserver/cluster_handlers.go:527-552 | For every text: splitting gives a registry, a repository and a reference exactly when the trimmed text is that registry, up to the first slash, and a remainder that reads as the other two, none empty, and is no URL; it is refused otherwise. |
| `Unregister.PlanStore.ListPlans` | backend/internal/httpserver/cluster_handlers.go:1213-1215 | Each stored plan once, in any order. |
| `Unregister.PlanStore.CleanupRelationships` | backend/internal/httpserver/cluster_handlers.go:1169-1192 | Wherever it fails, finishing from there leads to the same plans; success means they are reached: source plans gone, target-only plans without target, others untouched. |
| `Unregister.PlanStore.CleanupAgain` | backend/internal/httpserver/cluster_handlers.go:1169-1192 | A failed first attempt and a second one on re-listed plans end where one uninterrupted attempt ends. |
| `Unregister.CleanOneOnTheWay` | backend/internal/httpserver/cluster_handlers.go:1174-1190 | Cleaning one plan does not change where cleaning all of them ends. |
| `Unregister.CleanedIff` | backend/internal/httpserver/cluster_handlers.go:1169-1192 | Nothing is left to clean exactly when no plan names the cluster. |
| `Unregister.AuditPlans` | backend/internal/httpserver/cluster_handlers.go:890-1006 | The loop counts the plans the cluster is source or target of and collects the source plans' repositories. |
| `Unregister.AuditPoints` | backend/internal/httpserver/cluster_handlers.go:890-1006 | The loop counts the points not deleted and collects their repositories. |
| `Unregister.AuditTasks` | backend/internal/httpserver/cluster_handlers.go:890-1006 | The loop counts other active tasks, collects their kinds and notices an active unregister. |
| `Unregister.AuditCluster` | backend/internal/httpserver/cluster_handlers.go:890-1006 | The audit's counts, sorted distinct repositories and kinds and stage are what they say, and it allows exactly with the agent online, no active task, no active unregister and no plan targeting the cluster. |
| `Unregister.CreatedIff` | backend/internal/httpserver/cluster_handlers.go:1034-1122 | A task is created exactly if the agent is online, nothing else is active, and consent covers restore points and targeting plans; storage is cleaned exactly if any is involved, relationships exactly with consent and if there are any; restore points alone ask for consent. |
| `Unregister.StepInv` | backend/internal/httpserver/cluster_handlers.go:1169-1245 | Every step of worker, store, agent, reconnect and crash, and every save or removal of a plan by another request, keeps the workflow's invariant. |
| `Unregister.RunInv` | backend/internal/httpserver/unregister_lifecycle.go:7-32 | The same over every run. |
| `Unregister.WorkflowOrdered` | backend/internal/httpserver/cluster_handlers.go:1194-1245 | In every run, whatever other requests write, relationships go only after storage was cleaned, the flag is saved only after both, and the uninstall is sent only after the flag. |
| `Unregister.PlansKeptForRetry` | backend/internal/httpserver/cluster_handlers.go:1194-1245 | Until storage was cleaned the plans are exactly what other requests made of them; and at every point finishing the removal would lead to the plans it would have led to without the workflow's own writes. |
| `Unregister.NamedAfterUninstall` | backend/internal/httpserver/task_dispatch.go:61-160 | When the uninstall is out and removal was wanted, a plan names the cluster exactly when another request saved it so after the listing and nobody has written it since. |
| `Unregister.UninstalledClusterIsFree` | backend/internal/httpserver/cluster_handlers.go:1169-1245 | Then the plans are those of a full cleaning if and only if no such save came in after the listing. |
| `Unregister.UndisturbedRunUninstalls` | backend/internal/httpserver/cluster_handlers.go:1194-1245 | For every set of plans and every order of listing them there is a run from the creation of the task to the uninstall that leaves the plans of a full cleaning. |
| `Unregister.OverNeverUninstalls` | backend/internal/httpserver/cluster_handlers.go:1194-1245 | In every continuation, a task that is over sends no uninstall, unless the worker was just about to. |
| `Unregister.FailuresEndTheTask` | backend/internal/httpserver/cluster_handlers.go:1169-1226 | A failed storage cleanup, a failed removal and a relationship that changed since the listing end the task and leave the plans. |
| `Unregister.WorldWrites` | backend/internal/httpserver/task_dispatch.go:61-160 | What the end of the task, a crash, a stop, a reconnect and other requests' plan writes do. |
| `Unregister.SavedSinceIff` | backend/internal/httpserver/protection_plan_handlers.go:54-206 | The record of such saves, as the workflow's invariant counts them, is what the log says. |
| `Unregister.PlanSavedDuringUnregister` | backend/internal/httpserver/protection_plan_handlers.go:54-206 | For every cluster without plans there is a run in which another request creates a plan for it after the listing, and the uninstall goes out. |
| `Migration.RecordSound` | backend/internal/httpserver/community_migration.go:131-474 | Every change some handler permits keeps the history ordered and the freeze flag in step with the state. |
| `Migration.CommitsAppend` | backend/internal/httpserver/community_migration.go:458-474 | Appending an event keeps every commit preceded by a freeze, a later backup and a later handover start in force. |
| `Migration.OverlappingCommitIff` | backend/internal/httpserver/community_migration.go:131-474 | In every interleaving of guards, writes and expiries, a commit is in order if and only if nothing has started over since the freeze its guards rest on, or freeze, backup and handover were all done anew before it was written. |
| `Migration.CommitWindowIff` | backend/internal/httpserver/community_migration.go:458-474 | If the handover was in order when the commit passed its guard: the commit is in order if and only if no freeze, rollback or expiry was recorded between guard and write, or all was done anew in between. |
| `Migration.InterleaveInv` | backend/internal/httpserver/community_migration.go:131-474 | Under any overlap, every entry passed its guard at an earlier point of the history, and the freeze flag is in step with the state. |
| `Migration.ExpiryWrites` | backend/internal/store/postgres.go:463-464 | Expiry takes exactly the overdue session that is not final. |
| `Migration.RollbackBetweenCheckAndCommit` | backend/internal/httpserver/community_migration.go:444-474 | From every session just opened there is an interleaving of a commit and a rollback that ends committed and frozen although rolled back since the freeze. |
| `Migration.RollbackBetweenCheckAndHandover` | backend/internal/httpserver/community_migration.go:312-367 | There is one in which nobody overlaps the commit and it is out of order because a rollback overlapped the handover. |
| `Migration.AllAnewBetweenCheckAndCommit` | backend/internal/httpserver/community_migration.go:416-474 | There is one in which a freeze, a backup and a handover come between a commit's guard and its write, and the commit is in order. |
| `Migration.TokensMatchClusters` | backend/internal/httpserver/community_migration.go:331-345 | As many tokens as clusters and one for each cluster means tokens for exactly the cluster set. |
| `Migration.EveryClusterReady` | backend/internal/httpserver/community_migration.go:335-345 | Ready exactly if every cluster has a token that is not blank and an agent online. |
| `Migration.DispatchHandover` | backend/internal/httpserver/community_migration.go:346-360 | One dispatched task for each cluster with its own token, up to the first failure. |
| `Migration.Migrations.Update` | backend/internal/store/postgres.go:450-461 | One session changes by one recorded event, or none does; it may be saved although the call reports an error. |
| `Migration.Migrations.ExpireOverdue` | backend/internal/store/postgres.go:463-479 | Exactly the overdue sessions that are not final expire. |
| `Migration.Migrations.Open` | backend/internal/store/postgres.go:390-439 | Accepted exactly if every other session is final or overdue, and then it is the only open one. |
| `Migration.Migrations.Freeze` | backend/internal/httpserver/community_migration.go:416-442 | Refused exactly without a valid session or with active tasks; otherwise recorded if it can be saved. |
| `Migration.Migrations.Backup` | backend/internal/httpserver/community_migration.go:131-157 | Refused exactly unless frozen or backed up; recorded exactly if the backup succeeded and can be saved. |
| `Migration.Migrations.ExportBatch` | backend/internal/httpserver/community_migration.go:182-218 | Refused exactly unless backed up or exporting; the first batch, and no other, is recorded. |
| `Migration.Migrations.PrepareHandover` | backend/internal/httpserver/community_migration.go:312-367 | Refused exactly unless the session, the deadline window, the tokens and the agents allow it; one that starts had tokens for exactly the cluster set, sent each cluster its own, and is recorded only when all were sent. |
| `Migration.Migrations.Rollback` | backend/internal/httpserver/community_migration.go:444-456 | Refused exactly without a valid session; otherwise recorded and unfrozen if it can be saved. |
| `Migration.Migrations.Commit` | backend/internal/httpserver/community_migration.go:458-474 | Refused exactly unless in handover; otherwise recorded if it can be saved. |
| `Migration.Migrations.Run` | backend/internal/httpserver/community_migration.go:131-474 | In every run of requests every commit follows a freeze, a later backup and a later handover start with no rollback since that freeze; histories only grow; the freeze flag is on exactly from frozen to committed. |
| `Migration.Migrations.Migrate` | backend/internal/httpserver/community_migration.go:131-474 | From every platform without an open session, the requests in order with every one succeeding end committed, with exactly the history the protocol asks for. |
| `Migration.Migrations.BlockedIff` | backend/internal/store/postgres.go:481-485 | Changes are refused exactly while some unexpired session is between frozen and handover, not while committed. |

## Left out

- The shell installer, uninstaller and handover templates: generated text that other programs execute.
- HTTP decoding and encoding, contract builders, logging, captcha, authentication and permissions.
- Credential sealing and token generation in the migration code: foreign cryptography.
- Registry digest lookup, release catalog, docker, kubectl and health calls, beyond their success or failure.
- The React frontend.
- Dispatch workers that act on stale task snapshots: the message model covers agents' messages, not those workers. The models of store operations, of cleanup runs and of unregister let them write at any time.
- Events, waiters, acknowledgements and plan-status updates made beside a task update: no property here reads them.
- Errors of the store inside one message: a handler that cannot read or write stops early, and only the publication, capacity, unregister and plan-removal outcomes are parameters of the message model.
- Restoring the local release manifest on rollback: the code does not, and nothing about it is claimed.
- Replacing the upgrader itself after a successful upgrade.
- Cancel requests for registration tasks that are no longer queued: they only write a status the executor looks at.
- The failed upload that removes its own directory before anybody knows its id, and inspection of an uploaded kubeconfig.
- The fallback deadline of registration tasks whose credential deadline cannot be parsed.
- The computation of retention rules, and retention across passes: a silent cleanup task can be heard of again, so disjointness of cleanup tasks over whole runs is not claimed.
- Restore-point deletion and replacement quota, beyond their effect on claiming and publishing.
- The unregister path without object storage, which sends the uninstall from the request itself.
- CleanupRun.RemovedOnlyWhenComplete: says nothing about a run without an id, for which the newest task of each mode decides and no such promise holds.
- Registration.Sessions.Run: the removals by a start handler whose executor did not start and by the executor are exempt, because the code makes them while the task is still active.
- Upgrader.RollbackLeavesOldLookups: stated for a rollback none of whose lines was cut short, because the code does not notice when one is.
- AgentRuns.EndingDropsSample: stated for tasks without a publication reservation, which only backups have.
- AgentRuns.LatestSampleStored: stated for samples with an observation time and without a readiness stage, which resets the sample.
- TaskEvents.TaskEventLog.AddAll: stated for payloads that are not empty and a readable log, because the code appends without comparing otherwise.
- Floating-point JSON numbers in event payloads: formatting is a parameter, and numbers are integers.
