/** What every run of agent messages keeps. The lemmas take the store's freeze rule as a parameter:
    those that hold for both of its values are guaranteed by the handlers' own checks. */
module AgentRuns {
  import opened Text
  import opened TaskStore
  import opened AgentMessages

  // ---------------------------------------------------------------- completed tasks a message is not about

  /** No restore point appears for the task. */
  ghost predicate NoNewPoint(before: Db, after: Db, id: string) {
    forall k :: k in after.points && after.points[k] == id ==> k in before.points && before.points[k] == id
  }

  /** The task is gone or its row is untouched. Only a retention cleanup sets or clears the error of the
      backup that triggered it, and the freeze rule keeps it from doing so when that backup is completed. */
  ghost predicate Spared(freeze: bool, before: Db, after: Db, id: string) {
    && NoNewPoint(before, after, id)
    && (id in after.tasks ==>
          && id in before.tasks
          && var s, t := before.tasks[id], after.tasks[id];
          t == s.(error := t.error) && (freeze && s.completed ==> t == s))
  }

  ghost predicate DoneOrGone(db: Db, id: string) {
    id in db.tasks ==> db.tasks[id].completed
  }

  lemma SparedUpdate(freeze: bool, before: Db, db: Db, other: string, u: Update, id: string)
    requires Spared(freeze, before, db, id) && (other != id || (u.status == NO_STATUS && !u.markDone && u.sample.Keep? && u.veleroName.Keep?))
    ensures Spared(freeze, before, UpdateTask(freeze, db, other, u), id)
  {
  }

  lemma InventorySpares(freeze: bool, db: Db, cluster: string, backups: seq<ListedBackup>, id: string)
    requires DoneOrGone(db, id)
    ensures Spared(freeze, db, HandleInventory(freeze, db, cluster, backups), id)
    ensures HandleInventory(freeze, db, cluster, backups).points == db.points
  {
    hide UpdateTask;
    if backups != [] {
      var before := HandleInventory(freeze, db, cluster, backups[..|backups| - 1]);
      InventorySpares(freeze, db, cluster, backups[..|backups| - 1], id);
      SparedUpdate(freeze, db, before, backups[|backups| - 1].taskLabel, Update(NO_STATUS, NoError, false, Keep, Keep), id);
    }
  }

  lemma BackupCompletedSpares(freeze: bool, db: Db, other: string, command: string, c: Completion, id: string)
    requires other in db.tasks && id != other
    ensures Spared(freeze, db, HandleBackupCompleted(freeze, db, other, command, c), id)
  {
    hide CompletionMetrics, CompleteMetrics;
  }

  lemma SparedWarn(freeze: bool, before: Db, db: Db, trigger: string, error: ErrorCode, id: string)
    requires Spared(freeze, before, db, id)
    ensures Spared(freeze, before, WarnTrigger(freeze, db, trigger, error), id)
  {
    hide UpdateTask, Spared;
    if trigger != "" { SparedUpdate(freeze, before, db, trigger, Update(NO_STATUS, error, false, Keep, Keep), id); }
  }

  lemma SparedRemove(freeze: bool, before: Db, db: Db, plan: string, id: string)
    requires Spared(freeze, before, db, id)
    ensures Spared(freeze, before, RemovePlan(db, plan), id)
  {
  }

  /** Neither stopping nor resuming a backup reaches a completed one. */
  lemma SparedTarget(freeze: bool, before: Db, db: Db, cluster: string, target: string, name: string, id: string)
    requires Spared(freeze, before, db, id) && DoneOrGone(before, id)
    ensures Spared(freeze, before, StopTarget(freeze, db, cluster, target, name), id)
    ensures Spared(freeze, before, ResumeTarget(freeze, db, cluster, target), id)
  {
    hide UpdateTask;
    if target != id {
      SparedUpdate(freeze, before, db, target, Update(Exactly(Canceled), ForceStopped, true, Set(name), Keep), id);
      SparedUpdate(freeze, before, db, target, Update(Exactly(Running), Code("SYNC_FORCE_STOP_FAILED"), false, Keep, Keep), id);
    }
  }

  lemma OtherCompletedSpares(freeze: bool, db: Db, other: string, c: Completion, id: string)
    requires other in db.tasks && id != other
    ensures Spared(freeze, db, HandleOtherCompleted(freeze, db, other, c), id)
  {
    hide UpdateTask, WarnTrigger, RemovePlan, CompletedUpdate;
    assert Spared(freeze, db, db, id);
    hide Spared;
    var u := CompletedUpdate(Exactly(Finalizing), c, false);
    var finalizing := UpdateTask(freeze, db, other, u);
    SparedUpdate(freeze, db, db, other, u, id);
    SparedUpdate(freeze, db, finalizing, other, Update(Exactly(Failed), Code("PLATFORM_CLEANUP_FAILED"), true, Keep, Keep), id);
    SparedUpdate(freeze, db, finalizing, other, CompletedUpdate(Exactly(Succeeded), c, true), id);
    var done := UpdateTask(freeze, finalizing, other, CompletedUpdate(Exactly(Succeeded), c, true));
    SparedWarn(freeze, db, done, done.tasks[other].trigger, NoError, id);
    SparedRemove(freeze, db, done, done.tasks[other].plan, id);
  }

  lemma CancelCompletedSpares(freeze: bool, db: Db, cluster: string, other: string, c: Completion, id: string)
    requires DoneOrGone(db, id) && other in db.tasks && other != id
    ensures Spared(freeze, db, HandleCancelCompleted(freeze, db, cluster, other, c), id)
  {
    hide UpdateTask, StopTarget;
    assert Spared(freeze, db, db, id);
    hide Spared, DoneOrGone;
    var after := UpdateTask(freeze, db, other, CompletedUpdate(Exactly(Succeeded), c, true));
    SparedUpdate(freeze, db, db, other, CompletedUpdate(Exactly(Succeeded), c, true), id);
    var cancel := after.tasks[other];
    SparedTarget(freeze, db, after, cluster, if cancel.target != "" then cancel.target else c.targetTaskId,
                 if cancel.veleroName != "" then cancel.veleroName else c.backupName, id);
  }

  lemma CompletedSpares(freeze: bool, db: Db, cluster: string, other: string, command: string, c: Completion, id: string)
    requires DoneOrGone(db, id) && other != id
    ensures Spared(freeze, db, HandleCompleted(freeze, db, cluster, other, command, c), id)
  {
    hide TrimSpace, HandleBackupCompleted, HandleOtherCompleted, HandleCancelCompleted, UpdateTask;
    assert Spared(freeze, db, db, id);
    hide Spared, DoneOrGone;
    if Found(db, cluster, other) {
      match db.tasks[other].kind
      case Backup => BackupCompletedSpares(freeze, db, other, command, c, id);
      case BackupCancel => CancelCompletedSpares(freeze, db, cluster, other, c, id);
      case PlanCapacity => SparedUpdate(freeze, db, db, other, Update(Exactly(Succeeded), NoError, true, Keep, Keep), id);
      case AgentUpgrade => SparedUpdate(freeze, db, db, other, CompletedUpdate(Exactly(Running), c, false), id);
      case VeleroUpgrade => SparedUpdate(freeze, db, db, other, CompletedUpdate(Exactly(Running), c, false), id);
      case _ => OtherCompletedSpares(freeze, db, other, c, id);
    }
  }

  lemma FailedSpares(freeze: bool, db: Db, cluster: string, other: string, command: string, error: ErrorCode, id: string)
    requires DoneOrGone(db, id) && other != id
    ensures Spared(freeze, db, HandleFailed(freeze, db, cluster, other, command, error), id)
  {
    hide TrimSpace, UpdateTask, WarnTrigger, ResumeTarget;
    assert Spared(freeze, db, db, id);
    hide Spared, DoneOrGone;
    if Found(db, cluster, other) {
      var u := Update(Exactly(Failed), error, true, Keep, Set(None));
      SparedUpdate(freeze, db, db, other, u, id);
      var failed := UpdateTask(freeze, db, other, u);
      var t := failed.tasks[other];
      SparedWarn(freeze, db, failed, t.trigger, Code("RETENTION_CLEANUP_FAILED"), id);
      SparedTarget(freeze, db, failed, t.cluster, t.target, "", id);
    }
  }

  /** The message completes or fails that very task, or verifies it as an upgrade. */
  predicate About(m: Message, id: string) {
    ((m.TaskCompleted? || m.TaskFailed?) && m.taskId == id) || (m.Heartbeat? && id in m.verified)
  }

  lemma {:induction false} HeartbeatSpares(freeze: bool, db: Db, cluster: string, verified: seq<string>, id: string)
    requires id in verified && id in db.tasks ==> !Upgrade(db.tasks[id].kind)
    ensures Spared(freeze, db, HandleHeartbeat(freeze, db, cluster, verified), id)
    ensures HandleHeartbeat(freeze, db, cluster, verified).points == db.points
  {
    hide UpdateTask;
    if verified != [] {
      var n := |verified| - 1;
      HeartbeatSpares(freeze, db, cluster, verified[..n], id);
      var before := HandleHeartbeat(freeze, db, cluster, verified[..n]);
      if UpgradeOpen(before, cluster, verified[n]) {
        assert verified[n] != id;
        SparedUpdate(freeze, db, before, verified[n], Update(Exactly(Succeeded), NoError, true, Keep, Keep), id);
      }
    }
  }

  /** No message touches a completed task's row, unless it is about that very task. */
  lemma HandleSpares(freeze: bool, db: Db, cluster: string, m: Message, id: string)
    requires DoneOrGone(db, id) && !About(m, id)
    ensures Spared(freeze, db, Handle(freeze, db, cluster, m), id)
  {
    hide TrimSpace, HandleInventory, HandleCompleted, HandleFailed, HandleHeartbeat, StaleSample;
    match m
    case Inventory(backups) => InventorySpares(freeze, db, cluster, backups, id);
    case Heartbeat(verified) => HeartbeatSpares(freeze, db, cluster, verified, id);
    case TaskCompleted(other, command, c) => CompletedSpares(freeze, db, cluster, other, command, c, id);
    case TaskFailed(other, command, error) => FailedSpares(freeze, db, cluster, other, command, error, id);
    case _ =>
  }

  // ---------------------------------------------------------------- a force-stopped backup stays stopped

  /** If the backup is still stored, it is canceled and its completion is stamped. */
  ghost predicate StoppedForGood(db: Db, id: string) {
    id in db.tasks ==>
      db.tasks[id].kind.Backup? && db.tasks[id].status == Exactly(Canceled) && db.tasks[id].completed
  }

  lemma HandleStopped(freeze: bool, db: Db, cluster: string, m: Message, id: string)
    requires StoppedForGood(db, id)
    ensures StoppedForGood(Handle(freeze, db, cluster, m), id)
    ensures NoNewPoint(db, Handle(freeze, db, cluster, m), id)
  {
    hide TrimSpace, HandleBackupCompleted, UpdateTask, HandleHeartbeat;
    if m.Heartbeat? {
      HeartbeatSpares(freeze, db, cluster, m.verified, id);
    } else if About(m, id) {
    } else {
      hide Handle;
      HandleSpares(freeze, db, cluster, m, id);
    }
  }

  /** Once a backup is canceled with its completion stamped, no run of messages changes that or
      publishes a restore point for it: the handlers see to it, whatever the store's freeze rule. */
  lemma {:induction false} ForceStopIsFinal(freeze: bool, db: Db, ds: seq<Delivery>, id: string)
    requires StoppedForGood(db, id)
    ensures StoppedForGood(Run(freeze, db, ds), id)
    ensures NoNewPoint(db, Run(freeze, db, ds), id)
  {
    hide Handle;
    if ds != [] {
      var n := |ds| - 1;
      ForceStopIsFinal(freeze, db, ds[..n], id);
      HandleStopped(freeze, Run(freeze, db, ds[..n]), ds[n].cluster, ds[n].message, id);
    }
  }

  // ---------------------------------------------------------------- an accepted result stays accepted

  /** If the backup is still stored, it succeeded, holds its result, and its completion is stamped. */
  ghost predicate Recorded(db: Db, id: string) {
    id in db.tasks ==>
      && db.tasks[id].kind.Backup? && db.tasks[id].completed && db.tasks[id].result.Some?
      && db.tasks[id].status == Exactly(Succeeded)
  }

  predicate CompletionOf(m: Message, id: string) {
    m.TaskCompleted? && m.taskId == id
  }

  lemma BackupCompletedRecorded(db: Db, id: string, command: string, c: Completion)
    requires id in db.tasks && Recorded(db, id)
    ensures Recorded(HandleBackupCompleted(true, db, id, command, c), id)
  {
    hide CompletionMetrics, CompleteMetrics;
  }

  lemma HandleRecorded(freeze: bool, db: Db, cluster: string, m: Message, id: string)
    requires Recorded(db, id) && (freeze || !CompletionOf(m, id))
    ensures Recorded(Handle(freeze, db, cluster, m), id)
  {
    hide TrimSpace, HandleBackupCompleted, UpdateTask, HandleHeartbeat;
    if m.Heartbeat? {
      HeartbeatSpares(freeze, db, cluster, m.verified, id);
    } else if About(m, id) {
      if Found(db, cluster, id) && m.TaskCompleted? {
        BackupCompletedRecorded(db, id, m.command, m.report);
      }
    } else {
      hide Handle;
      HandleSpares(freeze, db, cluster, m, id);
    }
  }

  /** Once a backup's result is recorded and its completion stamped, no run of messages changes its
      status. Accepted, progress, failure and cancel messages are turned away by the handlers alone; a
      repeated completion of the same task is turned away by the store's freeze rule. */
  lemma {:induction false} ResultIsFinal(freeze: bool, db: Db, ds: seq<Delivery>, id: string)
    requires Recorded(db, id)
    requires freeze || forall d <- ds :: !CompletionOf(d.message, id)
    ensures Recorded(Run(freeze, db, ds), id)
  {
    hide Handle;
    if ds != [] {
      var n := |ds| - 1;
      ResultIsFinal(freeze, db, ds[..n], id);
      HandleRecorded(freeze, Run(freeze, db, ds[..n]), ds[n].cluster, ds[n].message, id);
    }
  }

  // ---------------------------------------------------------------- a failed backup stays failed

  /** If the backup is still stored, it failed and its completion is stamped. */
  ghost predicate FailedForGood(db: Db, id: string) {
    id in db.tasks ==>
      db.tasks[id].kind.Backup? && db.tasks[id].status == Exactly(Failed) && db.tasks[id].completed
  }

  lemma BackupCompletedFailed(db: Db, id: string, command: string, c: Completion)
    requires id in db.tasks && FailedForGood(db, id)
    ensures FailedForGood(HandleBackupCompleted(true, db, id, command, c), id)
    ensures HandleBackupCompleted(true, db, id, command, c).points == db.points
  {
    hide CompletionMetrics, CompleteMetrics;
  }

  lemma HandleFailedForGood(freeze: bool, db: Db, cluster: string, m: Message, id: string)
    requires FailedForGood(db, id) && (freeze || !CompletionOf(m, id))
    ensures FailedForGood(Handle(freeze, db, cluster, m), id)
    ensures NoNewPoint(db, Handle(freeze, db, cluster, m), id)
  {
    hide TrimSpace, HandleBackupCompleted, UpdateTask, HandleHeartbeat;
    if m.Heartbeat? {
      HeartbeatSpares(freeze, db, cluster, m.verified, id);
    } else if About(m, id) {
      if Found(db, cluster, id) && m.TaskCompleted? {
        BackupCompletedFailed(db, id, m.command, m.report);
      }
    } else {
      hide Handle;
      HandleSpares(freeze, db, cluster, m, id);
    }
  }

  /** Once a backup failed with its completion stamped, no run of messages changes its status or publishes a
      restore point for it; against a late completion of the same backup it is the freeze rule that helps. */
  lemma {:induction false} FailureIsFinal(freeze: bool, db: Db, ds: seq<Delivery>, id: string)
    requires FailedForGood(db, id)
    requires freeze || forall d <- ds :: !CompletionOf(d.message, id)
    ensures FailedForGood(Run(freeze, db, ds), id)
    ensures NoNewPoint(db, Run(freeze, db, ds), id)
  {
    hide Handle;
    if ds != [] {
      var n := |ds| - 1;
      FailureIsFinal(freeze, db, ds[..n], id);
      HandleFailedForGood(freeze, Run(freeze, db, ds[..n]), ds[n].cluster, ds[n].message, id);
    }
  }

  /** A completion that fits the task but lacks complete measurements. */
  ghost predicate Unmeasured(t: Task, c: Completion) {
    && c.operation == "" && c.status == "" && c.phase == "" && c.veleroKind == "Backup" && c.veleroName != ""
    && (t.veleroName == "" || t.veleroName == c.veleroName) && !CompleteMetrics(CompletionMetrics(c))
  }

  lemma UnmeasuredOnlyFinalizes(freeze: bool, db: Db, id: string, c: Completion)
    requires id in db.tasks && Unmeasured(db.tasks[id], c)
    ensures HandleBackupCompleted(freeze, db, id, "", c) ==
            UpdateTask(freeze, db, id, Update(Exactly(Finalizing), Code("BACKUP_RESULT_INCOMPLETE"), false, Keep, Keep))
  {
    hide CompletionMetrics, CompleteMetrics, UpdateTask, Publish;
  }

  /** Without the freeze rule, repeating a completion with incomplete measurements reopens the task. */
  lemma UnfrozenCompletionReopens(db: Db, cluster: string, id: string, c: Completion)
    requires TrimSpace(id) != "" && Found(db, cluster, id) && Recorded(db, id) && db.tasks[id].error.NoError?
    requires Unmeasured(db.tasks[id], c)
    ensures id in Handle(false, db, cluster, TaskCompleted(id, "", c)).tasks && id in Handle(true, db, cluster, TaskCompleted(id, "", c)).tasks
    ensures Handle(false, db, cluster, TaskCompleted(id, "", c)).tasks[id].status == Exactly(Finalizing)
    ensures Handle(true, db, cluster, TaskCompleted(id, "", c)).tasks[id].status == Exactly(Succeeded)
  {
    hide TrimSpace, Unmeasured, HandleBackupCompleted, UpdateTask, Handle;
    BackupCompletionHandled(true, db, cluster, id, c);
    BackupCompletionHandled(false, db, cluster, id, c);
    UnmeasuredOnlyFinalizes(true, db, id, c);
    UnmeasuredOnlyFinalizes(false, db, id, c);
  }

  lemma BackupCompletionHandled(freeze: bool, db: Db, cluster: string, id: string, c: Completion)
    requires TrimSpace(id) != "" && Found(db, cluster, id) && db.tasks[id].kind.Backup? && !ForceStoppedTask(db.tasks[id])
    ensures Handle(freeze, db, cluster, TaskCompleted(id, "", c)) == HandleBackupCompleted(freeze, db, id, "", c)
  {
    hide TrimSpace, HandleBackupCompleted;
  }

  // ---------------------------------------------------------------- completion and force stop race

  /** Every published point belongs to a backup that succeeded and is stamped. */
  ghost predicate PointsAreFinal(db: Db) {
    forall k :: k in db.points ==> Recorded(db, db.points[k])
  }

  lemma PublishedIsRecorded(db: Db, id: string, command: string, c: Completion)
    requires id in db.tasks
    ensures var r := HandleBackupCompleted(true, db, id, command, c);
            forall k :: k in r.points && !(k in db.points && db.points[k] == r.points[k]) ==> r.points[k] == id && Recorded(r, id)
  {
    hide CompletionMetrics, CompleteMetrics, Dead;
  }

  /** Apart from publishing a backup's completion, handling a message adds no points. */
  lemma OnlyPublishingAddsPoints(db: Db, cluster: string, m: Message)
    requires !(m.TaskCompleted? && Found(db, cluster, m.taskId) && db.tasks[m.taskId].kind.Backup?)
    ensures var r := Handle(true, db, cluster, m); forall k :: k in r.points ==> k in db.points && db.points[k] == r.points[k]
  {
    hide TrimSpace, HandleInventory, StaleSample, UpdateTask, UpdateRow, HandleFailed, HandleCompleted, HandleHeartbeat;
    match m
    case Heartbeat(verified) => HeartbeatKeepsPoints(true, db, cluster, verified);
    case Inventory(backups) => InventoryKeepsPoints(true, db, cluster, backups);
    case TaskCompleted(id, command, c) => CompletedAddsNoPoints(db, cluster, id, command, c);
    case TaskFailed(id, command, error) => FailedKeepsPoints(db, cluster, id, command, error);
    case _ =>
  }

  lemma CompletedAddsNoPoints(db: Db, cluster: string, id: string, command: string, c: Completion)
    requires !(Found(db, cluster, id) && db.tasks[id].kind.Backup?)
    ensures var r := HandleCompleted(true, db, cluster, id, command, c); forall k :: k in r.points ==> k in db.points && db.points[k] == r.points[k]
  {
    hide TrimSpace, UpdateTask, UpdateRow, CompletedUpdate;
  }

  lemma FailedKeepsPoints(db: Db, cluster: string, id: string, command: string, error: ErrorCode)
    ensures HandleFailed(true, db, cluster, id, command, error).points == db.points
  {
    hide TrimSpace, UpdateTask, UpdateRow;
  }

  lemma NewPointRecorded(db: Db, cluster: string, m: Message, k: (string, string))
    requires var r := Handle(true, db, cluster, m); k in r.points && !(k in db.points && db.points[k] == r.points[k])
    ensures var r := Handle(true, db, cluster, m); Recorded(r, r.points[k])
  {
    hide TrimSpace, HandleBackupCompleted;
    if m.TaskCompleted? && Found(db, cluster, m.taskId) && db.tasks[m.taskId].kind.Backup? {
      PublishedIsRecorded(db, m.taskId, m.command, m.report);
    } else {
      hide Handle;
      OnlyPublishingAddsPoints(db, cluster, m);
    }
  }

  lemma InventoryKeepsPoints(freeze: bool, db: Db, cluster: string, backups: seq<ListedBackup>)
    ensures HandleInventory(freeze, db, cluster, backups).points == db.points
  {
    if backups != [] { InventoryKeepsPoints(freeze, db, cluster, backups[..|backups| - 1]); }
  }

  lemma HeartbeatKeepsPoints(freeze: bool, db: Db, cluster: string, verified: seq<string>)
    ensures HandleHeartbeat(freeze, db, cluster, verified).points == db.points
  {
    if verified != [] { HeartbeatKeepsPoints(freeze, db, cluster, verified[..|verified| - 1]); }
  }

  lemma HandleKeepsPointsFinal(db: Db, cluster: string, m: Message)
    requires PointsAreFinal(db)
    ensures PointsAreFinal(Handle(true, db, cluster, m))
  {
    hide Handle, Recorded;
    var r := Handle(true, db, cluster, m);
    forall k | k in r.points ensures Recorded(r, r.points[k]) {
      if k in db.points && db.points[k] == r.points[k] {
        HandleRecorded(true, db, cluster, m, r.points[k]);
      } else {
        NewPointRecorded(db, cluster, m, k);
      }
    }
  }

  lemma {:induction false} RunKeepsPointsFinal(db: Db, ds: seq<Delivery>)
    requires PointsAreFinal(db)
    ensures PointsAreFinal(Run(true, db, ds))
  {
    hide Handle, PointsAreFinal;
    if ds != [] {
      RunKeepsPointsFinal(db, ds[..|ds| - 1]);
      HandleKeepsPointsFinal(Run(true, db, ds[..|ds| - 1]), ds[|ds| - 1].cluster, ds[|ds| - 1].message);
    }
  }

  /** In a race between completion and force stop the first to stamp completion wins: after any run no
      backup both has a restore point and was canceled, and from the point at which one of the two is
      stamped on, the other never happens. */
  lemma FirstStampWins(db: Db, before: seq<Delivery>, after: seq<Delivery>, id: string)
    requires PointsAreFinal(db)
    ensures var mid, end := Run(true, db, before), Run(true, Run(true, db, before), after);
            && (id in mid.tasks && StoppedForGood(mid, id) ==> StoppedForGood(end, id) && forall k :: k in end.points ==> end.points[k] != id)
            && ((exists k :: k in mid.points && mid.points[k] == id) ==> Recorded(end, id))
  {
    hide Run;
    var mid := Run(true, db, before);
    RunKeepsPointsFinal(db, before);
    if id in mid.tasks && StoppedForGood(mid, id) {
      ForceStopIsFinal(true, mid, after, id);
    }
    if k :| k in mid.points && mid.points[k] == id {
      ResultIsFinal(true, mid, after, id);
    }
  }

  /** A backup whose data is being published can no longer be force stopped: the cancel completes, the
      backup goes on to finalize. */
  lemma PublishingOutlivesForceStop(db: Db, cluster: string, target: string, name: string)
    requires Found(db, cluster, target) && db.tasks[target].kind.Backup? && !db.tasks[target].completed && Publishing(db, target)
    ensures var t := StopTarget(true, db, cluster, target, name).tasks[target];
            !t.completed && t.status == Exactly(Finalizing)
  {
  }

  // ---------------------------------------------------------------- what a completion achieves

  /** The completion is one of this backup, measured completely. */
  ghost predicate Fits(t: Task, command: string, c: Completion) {
    && (command == "" || command == t.command) && (c.operation == "" || c.operation == "backup")
    && (c.status == "" || c.status == "succeeded") && (c.phase == "" || c.phase == "Completed")
    && c.veleroKind == "Backup" && c.veleroName != "" && (t.veleroName == "" || t.veleroName == c.veleroName)
    && CompleteMetrics(CompletionMetrics(c)) && t.plan != "" && !c.world.planElsewhere
  }

  /** No other result, no other backup's point, no full quota and no point to be replaced stands in the way. */
  ghost predicate RoomFor(db: Db, id: string, c: Completion)
    requires id in db.tasks
  {
    var w, key := c.world.publish, (db.tasks[id].cluster, c.veleroName);
    && !w.fails && (key in db.points ==> db.points[key] == id)
    && (db.tasks[id].result.Some? ==> CompletionMetrics(c) == Some(db.tasks[id].result.value.metrics) && db.tasks[id].result.value.name == c.veleroName)
    && (if id in db.reservations
        then !db.reservations[id].Released? && (w.replacementPending ==> db.reservations[id].Published?)
        else !w.quota.Full? && (w.replacementPending ==> !w.quota.Slot?))
  }

  /** The backup succeeded, is stamped and has the restore point of that name. */
  ghost predicate PublishedAs(db: Db, id: string, name: string) {
    && id in db.tasks && Recorded(db, id) && db.tasks[id].hasPoint && db.tasks[id].result.value.name == name
    && (db.tasks[id].cluster, name) in db.points && db.points[(db.tasks[id].cluster, name)] == id
  }

  /** Of an open backup nobody is stopping, a completion makes a restore point exactly when it fits the
      backup and the store has room for it. */
  lemma PublishedIff(db: Db, cluster: string, id: string, command: string, c: Completion)
    requires TrimSpace(id) != "" && Found(db, cluster, id) && db.tasks[id].kind.Backup? && !db.tasks[id].completed
    requires Active(db.tasks[id].status) && !ForceStoppedTask(db.tasks[id])
    ensures PublishedAs(Handle(true, db, cluster, TaskCompleted(id, command, c)), id, c.veleroName) <==>
            Fits(db.tasks[id], command, c) && RoomFor(db, id, c)
  {
    hide TrimSpace, CompletionMetrics;
  }

  /** Agents repeat what was not acknowledged: a completion that made a restore point changes nothing when
      it comes again, whatever the store has become otherwise. */
  lemma RepeatedCompletionIsIdle(db: Db, cluster: string, id: string, command: string, c: Completion, w: World)
    requires TrimSpace(id) != "" && Found(db, cluster, id) && db.tasks[id].kind.Backup? && !ForceStoppedTask(db.tasks[id])
    requires PublishedAs(db, id, c.veleroName) && Some(db.tasks[id].result.value.metrics) == CompletionMetrics(c)
    requires Fits(db.tasks[id], command, c)
    ensures Handle(true, db, cluster, TaskCompleted(id, command, c.(world := w))) == db
  {
    hide TrimSpace;
  }

  /** A force stop that completes while the backup's data is not being published stops the backup for good. */
  lemma ForceStopTakes(db: Db, cluster: string, cancel: string, command: string, c: Completion, target: string)
    requires TrimSpace(cancel) != "" && Found(db, cluster, cancel) && db.tasks[cancel].kind.BackupCancel? && cancel != target
    requires target == if db.tasks[cancel].target != "" then db.tasks[cancel].target else c.targetTaskId
    requires Found(db, cluster, target) && db.tasks[target].kind.Backup? && !db.tasks[target].completed && !Publishing(db, target)
    ensures var r := Handle(true, db, cluster, TaskCompleted(cancel, command, c));
            && target in r.tasks && StoppedForGood(r, target) && r.tasks[target].error.ForceStopped?
            && cancel in r.tasks && (r.tasks[cancel].completed || Publishing(db, cancel))
  {
    hide TrimSpace;
  }

  // ---------------------------------------------------------------- size samples

  /** A progress message for an open recovery task that carries a dated sample and no readiness stage. */
  ghost predicate DatedSample(db: Db, cluster: string, id: string, m: Message) {
    && m.TaskProgress? && m.taskId == id && id in db.tasks && !Mismatch(m.command, db.tasks[id].command)
    && Active(m.status) && m.sample.Some? && m.sample.value.observedAt > 0 && !m.readiness
  }

  ghost predicate OpenRecovery(db: Db, cluster: string, id: string) {
    Found(db, cluster, id) && !db.tasks[id].kind.Backup? && !db.tasks[id].completed && Active(db.tasks[id].status)
  }

  /** The sample is one of those delivered and none was observed later. */
  ghost predicate LatestOf(s: Option<Sample>, ds: seq<Delivery>) {
    && (ds == [] ==> s == None)
    && (ds != [] ==> s.Some? && exists d <- ds :: d.message.TaskProgress? && d.message.sample == s)
    && forall d <- ds :: d.message.TaskProgress? && d.message.sample.Some? && s.Some? && d.message.sample.value.observedAt <= s.value.observedAt
  }

  function SampleOf(d: Delivery): Option<Sample> {
    if d.message.TaskProgress? then d.message.sample else None
  }

  lemma TakeDated(freeze: bool, db: Db, cluster: string, id: string, m: Message)
    requires OpenRecovery(db, cluster, id) && DatedSample(db, cluster, id, m)
    requires db.tasks[id].sample.Some? ==> db.tasks[id].sample.value.observedAt > 0
    ensures var r := Handle(freeze, db, cluster, m);
            && OpenRecovery(r, cluster, id) && r.tasks[id].command == db.tasks[id].command
            && r.tasks[id].sample ==
                 if db.tasks[id].sample.Some? && m.sample.value.observedAt <= db.tasks[id].sample.value.observedAt
                 then db.tasks[id].sample else m.sample
  {
  }

  /** However the samples are delivered, the stored one is the latest observed. */
  lemma {:induction false} LatestSampleStored(freeze: bool, db: Db, cluster: string, id: string, ds: seq<Delivery>)
    requires OpenRecovery(db, cluster, id) && db.tasks[id].sample == None
    requires forall d <- ds :: d.cluster == cluster && DatedSample(db, cluster, id, d.message)
    ensures var r := Run(freeze, db, ds);
            OpenRecovery(r, cluster, id) && r.tasks[id].command == db.tasks[id].command && LatestOf(r.tasks[id].sample, ds)
  {
    hide Handle;
    if ds != [] {
      var n := |ds| - 1;
      var init := ds[..n];
      LatestSampleStored(freeze, db, cluster, id, init);
      var mid := Run(freeze, db, init);
      assert ds[n] in ds && ds == init + [ds[n]];
      TakeDated(freeze, mid, cluster, id, ds[n].message);
    }
  }

  /** Two delivery orders of the same samples, observed at different times, end with the same sample. */
  lemma DeliveryOrderIrrelevant(freeze: bool, db: Db, cluster: string, id: string, ds: seq<Delivery>, es: seq<Delivery>)
    requires OpenRecovery(db, cluster, id) && db.tasks[id].sample == None
    requires forall d <- ds :: d.cluster == cluster && DatedSample(db, cluster, id, d.message)
    requires multiset(ds) == multiset(es)
    requires forall d <- ds, e <- ds ::
               SampleOf(d).Some? && SampleOf(e).Some? && SampleOf(d).value.observedAt == SampleOf(e).value.observedAt ==> SampleOf(d) == SampleOf(e)
    ensures id in Run(freeze, db, ds).tasks && id in Run(freeze, db, es).tasks
    ensures Run(freeze, db, ds).tasks[id].sample == Run(freeze, db, es).tasks[id].sample
  {
    hide Run, DatedSample;
    SameElements(ds, es);
    LatestSampleStored(freeze, db, cluster, id, ds);
    LatestSampleStored(freeze, db, cluster, id, es);
  }

  lemma SameElements<T>(a: seq<T>, b: seq<T>)
    requires multiset(a) == multiset(b)
    ensures forall x :: x in a <==> x in b
    ensures a == [] <==> b == []
  {
    forall x ensures x in a <==> x in b { assert x in multiset(a) <==> x in multiset(b); }
  }

  /** If the task is still stored, it is stamped complete and holds no running sample. */
  ghost predicate SampleGone(db: Db, id: string) {
    id in db.tasks ==> db.tasks[id].completed && db.tasks[id].sample == None
  }

  lemma BackupCompletedSampleGone(freeze: bool, db: Db, command: string, c: Completion, id: string)
    requires id in db.tasks && SampleGone(db, id)
    ensures SampleGone(HandleBackupCompleted(freeze, db, id, command, c), id)
  {
    hide CompletionMetrics, CompleteMetrics;
  }

  lemma GoneUpdate(freeze: bool, db: Db, other: string, u: Update, id: string)
    requires SampleGone(db, id) && (u.sample.Keep? || u.sample == Set(None))
    ensures SampleGone(UpdateTask(freeze, db, other, u), id)
  {
  }

  lemma OtherCompletedSampleGone(freeze: bool, db: Db, c: Completion, id: string)
    requires id in db.tasks && SampleGone(db, id)
    ensures SampleGone(HandleOtherCompleted(freeze, db, id, c), id)
  {
    hide UpdateTask, RemovePlan;
    var u := CompletedUpdate(Exactly(Finalizing), c, false);
    var finalizing := UpdateTask(freeze, db, id, u);
    GoneUpdate(freeze, db, id, u, id);
    GoneUpdate(freeze, finalizing, id, Update(Exactly(Failed), Code("PLATFORM_CLEANUP_FAILED"), true, Keep, Keep), id);
    GoneUpdate(freeze, finalizing, id, CompletedUpdate(Exactly(Succeeded), c, true), id);
    var done := UpdateTask(freeze, finalizing, id, CompletedUpdate(Exactly(Succeeded), c, true));
    GoneUpdate(freeze, done, done.tasks[id].trigger, Update(NO_STATUS, NoError, false, Keep, Keep), id);
  }

  lemma CompletedSampleGone(freeze: bool, db: Db, cluster: string, command: string, c: Completion, id: string)
    requires SampleGone(db, id)
    ensures SampleGone(HandleCompleted(freeze, db, cluster, id, command, c), id)
  {
    hide TrimSpace, HandleBackupCompleted, HandleOtherCompleted, UpdateTask, SampleGone, StopTarget;
    if Found(db, cluster, id) {
      match db.tasks[id].kind
      case Backup => BackupCompletedSampleGone(freeze, db, command, c, id);
      case BackupCancel =>
        GoneUpdate(freeze, db, id, CompletedUpdate(Exactly(Succeeded), c, true), id);
        var after := UpdateTask(freeze, db, id, CompletedUpdate(Exactly(Succeeded), c, true));
        TargetSampleGone(freeze, after, cluster, if after.tasks[id].target != "" then after.tasks[id].target else c.targetTaskId,
                         if after.tasks[id].veleroName != "" then after.tasks[id].veleroName else c.backupName, id);
      case PlanCapacity => GoneUpdate(freeze, db, id, Update(Exactly(Succeeded), NoError, true, Keep, Keep), id);
      case AgentUpgrade => GoneUpdate(freeze, db, id, CompletedUpdate(Exactly(Running), c, false), id);
      case VeleroUpgrade => GoneUpdate(freeze, db, id, CompletedUpdate(Exactly(Running), c, false), id);
      case _ => OtherCompletedSampleGone(freeze, db, c, id);
    }
  }

  lemma TargetSampleGone(freeze: bool, db: Db, cluster: string, target: string, name: string, id: string)
    requires SampleGone(db, id)
    ensures SampleGone(StopTarget(freeze, db, cluster, target, name), id)
    ensures SampleGone(ResumeTarget(freeze, db, cluster, target), id)
  {
    hide UpdateTask, SampleGone;
    GoneUpdate(freeze, db, target, Update(Exactly(Canceled), ForceStopped, true, Set(name), Keep), id);
    GoneUpdate(freeze, db, target, Update(Exactly(Running), Code("SYNC_FORCE_STOP_FAILED"), false, Keep, Keep), id);
  }

  lemma FailedSampleGone(freeze: bool, db: Db, cluster: string, command: string, error: ErrorCode, id: string)
    requires SampleGone(db, id)
    ensures SampleGone(HandleFailed(freeze, db, cluster, id, command, error), id)
  {
    hide TrimSpace, UpdateTask, SampleGone, ResumeTarget;
    if Found(db, cluster, id) {
      var u := Update(Exactly(Failed), error, true, Keep, Set(None));
      GoneUpdate(freeze, db, id, u, id);
      var failed := UpdateTask(freeze, db, id, u);
      GoneUpdate(freeze, failed, failed.tasks[id].trigger, Update(NO_STATUS, Code("RETENTION_CLEANUP_FAILED"), false, Keep, Keep), id);
      TargetSampleGone(freeze, failed, failed.tasks[id].cluster, failed.tasks[id].target, "", id);
    }
  }

  lemma {:induction false} HeartbeatSampleGone(freeze: bool, db: Db, cluster: string, verified: seq<string>, id: string)
    requires SampleGone(db, id)
    ensures SampleGone(HandleHeartbeat(freeze, db, cluster, verified), id)
  {
    hide UpdateTask, SampleGone;
    if verified != [] {
      var n := |verified| - 1;
      HeartbeatSampleGone(freeze, db, cluster, verified[..n], id);
      GoneUpdate(freeze, HandleHeartbeat(freeze, db, cluster, verified[..n]), verified[n], Update(Exactly(Succeeded), NoError, true, Keep, Keep), id);
    }
  }

  lemma HandleSampleGone(freeze: bool, db: Db, cluster: string, m: Message, id: string)
    requires SampleGone(db, id)
    ensures SampleGone(Handle(freeze, db, cluster, m), id)
  {
    hide HandleCompleted, HandleFailed, HandleHeartbeat;
    if About(m, id) {
      if m.TaskCompleted? {
        CompletedSampleGone(freeze, db, cluster, m.command, m.report, id);
      } else if m.Heartbeat? {
        HeartbeatSampleGone(freeze, db, cluster, m.verified, id);
      } else {
        FailedSampleGone(freeze, db, cluster, m.command, m.error, id);
      }
    } else {
      hide Handle;
      HandleSpares(freeze, db, cluster, m, id);
    }
  }

  /** Completing or failing a recovery task stamps it and drops its running sample... */
  lemma EndingDropsSample(freeze: bool, db: Db, cluster: string, m: Message)
    requires m.TaskCompleted? || m.TaskFailed?
    requires TrimSpace(m.taskId) != "" && Found(db, cluster, m.taskId)
    requires m.TaskFailed? ==> m.command == "" || m.command == db.tasks[m.taskId].command
    requires db.tasks[m.taskId].kind.Restore? || db.tasks[m.taskId].kind.Drill? || db.tasks[m.taskId].kind.Takeover?
    requires m.taskId !in db.reservations
    ensures var r := Handle(freeze, db, cluster, m);
            m.taskId in r.tasks && r.tasks[m.taskId].completed && r.tasks[m.taskId].sample == None
  {
    hide TrimSpace;
  }

  /** ... and no run of messages brings it back. */
  lemma {:induction false} SampleNeverReturns(freeze: bool, db: Db, ds: seq<Delivery>, id: string)
    requires SampleGone(db, id)
    ensures SampleGone(Run(freeze, db, ds), id)
  {
    hide Handle;
    if ds != [] {
      var n := |ds| - 1;
      SampleNeverReturns(freeze, db, ds[..n], id);
      HandleSampleGone(freeze, Run(freeze, db, ds[..n]), ds[n].cluster, ds[n].message, id);
    }
  }
}
