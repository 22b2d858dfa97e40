/** The message loop as the platform runs it: look a task up, check it, update rows one after the
    other. Each handler is proved against its function in AgentMessages, for the store's freeze rule. */
module AgentRouter {
  import opened Text
  import opened TaskStore
  import opened AgentMessages

  class Router {
    var db: Db

    constructor (initial: Db)
      ensures db == initial
    {
      db := initial;
    }

    /** Walks the cluster's tasks for one id. */
    method FindTaskById(cluster: string, id: string) returns (found: Option<Task>)
      ensures found == if Found(db, cluster, id) then Some(db.tasks[id]) else None
    {
      if id == "" {
        return None;
      }
      var left := db.tasks.Keys;
      while left != {}
        invariant left <= db.tasks.Keys
        invariant Found(db, cluster, id) ==> id in left
        decreases left
      {
        var k :| k in left;
        if db.tasks[k].cluster == cluster && k == id {
          return Some(db.tasks[k]);
        }
        left := left - {k};
      }
      found := None;
    }

    /** The row, and the release of a dead task's reservation. */
    method UpdateTaskStatus(id: string, u: Update) returns (updated: Option<Task>)
      modifies this
      ensures db == UpdateTask(true, old(db), id, u)
      ensures updated == if id in db.tasks then Some(db.tasks[id]) else None
    {
      if id !in db.tasks {
        return None;
      }
      var row := UpdateRow(true, db.tasks[id], Publishing(db, id), u);
      var slots := db.reservations;
      if u.markDone || Dead(u.status) {
        if id in slots && slots[id].Reserved? && Dead(row.status) {
          slots := slots[id := Released];
        }
      }
      db := db.(tasks := db.tasks[id := row], reservations := slots);
      updated := Some(row);
    }

    method OnAccepted(cluster: string, id: string, command: string)
      modifies this
      ensures db == HandleAccepted(true, old(db), cluster, id, command)
    {
      hide TrimSpace, UpdateTask;
      if TrimSpace(id) == "" {
        return;
      }
      var existing := FindTaskById(cluster, id);
      if existing.None? || Mismatch(command, existing.value.command) {
        return;
      }
      if existing.value.completed || existing.value.result.Some? {
        return;
      }
      var _ := UpdateTaskStatus(id, Update(Exactly(Accepted), NoError, false, Keep, Keep));
    }

    method OnProgress(cluster: string, m: Message)
      requires m.TaskProgress?
      modifies this
      ensures db == HandleProgress(true, old(db), cluster, m)
    {
      hide UpdateTask;
      var existing := FindTaskById(cluster, m.taskId);
      if existing.None? {
        return;
      }
      var t := existing.value;
      if t.completed || !Active(t.status) {
        return;
      }
      if Mismatch(m.command, t.command) {
        return;
      }
      if !Active(m.status) {
        return;
      }
      if t.kind.Backup? && (t.status == Exactly(Finalizing) || t.result.Some?) {
        return;
      }
      if m.sample.Some? {
        if StaleSample(t.sample, m.sample.value) {
          return;
        }
      }
      var _ := UpdateTaskStatus(m.taskId, Update(m.status, NoError, false, NameEdit(m.veleroName), SampleEdit(m.sample, m.readiness)));
    }

    method OnVeleroEvent(cluster: string, m: Message)
      requires m.VeleroEvent?
      modifies this
      ensures db == HandleVeleroEvent(true, old(db), cluster, m)
    {
      hide EventTaskId, UpdateTask;
      if m.backupName == "" || m.planId == "" || !m.planIsHere {
        return;
      }
      var id := EventTaskId(m.taskId, m.labelTaskId);
      if id == "" || m.deleting || id !in db.tasks {
        return;
      }
      var t := db.tasks[id];
      if t.cluster != cluster || t.plan != m.planId || !t.kind.Backup? {
        return;
      }
      if m.command != "" && m.command != t.command {
        return;
      }
      if m.labelTaskId != "" && m.labelTaskId != id {
        return;
      }
      if t.veleroName != "" && t.veleroName != m.backupName {
        return;
      }
      if t.completed {
        return;
      }
      var _ := UpdateTaskStatus(id, Update(NO_STATUS, NoError, false, Keep, Keep));
    }

    method ObserveInventoryBackups(cluster: string, backups: seq<ListedBackup>)
      modifies this
      ensures db == HandleInventory(true, old(db), cluster, backups)
    {
      hide UpdateTask;
      for i := 0 to |backups|
        invariant db == HandleInventory(true, old(db), cluster, backups[..i])
      {
        assert backups[..i + 1][..i] == backups[..i];
        var b := backups[i];
        if b.taskLabel == "" {
          continue;
        }
        var found := FindTaskById(cluster, b.taskLabel);
        if found.None? || !found.value.kind.Backup? || found.value.completed {
          continue;
        }
        if found.value.plan != b.planLabel {
          continue;
        }
        if found.value.veleroName != "" && found.value.veleroName != b.name {
          continue;
        }
        var _ := UpdateTaskStatus(b.taskLabel, Update(NO_STATUS, NoError, false, Keep, Keep));
      }
      assert backups[..|backups|] == backups;
    }

    method FinishBackupCancelTask(cluster: string, id: string, c: Completion)
      requires id in db.tasks
      modifies this
      ensures db == HandleCancelCompleted(true, old(db), cluster, id, c)
    {
      hide UpdateTask;
      var cancel := UpdateTaskStatus(id, CompletedUpdate(Exactly(Succeeded), c, true));
      var targetId := if cancel.value.target != "" then cancel.value.target else c.targetTaskId;
      var target := FindTaskById(cluster, targetId);
      if target.None? || !target.value.kind.Backup? {
        return;
      }
      if target.value.completed {
        return;
      }
      var name := if cancel.value.veleroName != "" then cancel.value.veleroName else c.backupName;
      var _ := UpdateTaskStatus(targetId, Update(Exactly(Canceled), ForceStopped, true, Set(name), Keep));
    }

    method MarkBackupCancelFailed(cancel: Task)
      modifies this
      ensures db == ResumeTarget(true, old(db), cancel.cluster, cancel.target)
    {
      hide UpdateTask;
      var target := FindTaskById(cancel.cluster, cancel.target);
      if target.None? || !target.value.kind.Backup? || target.value.completed {
        return;
      }
      if target.value.status != Exactly(Canceling) {
        return;
      }
      var _ := UpdateTaskStatus(cancel.target, Update(Exactly(Running), Code("SYNC_FORCE_STOP_FAILED"), false, Keep, Keep));
    }

    method AcceptBackupCompletion(id: string, command: string, c: Completion)
      requires id in db.tasks
      modifies this
      ensures db == HandleBackupCompleted(true, old(db), id, command, c)
    {
      hide UpdateTask, CompletionMetrics, CompleteMetrics, Publish;
      var t := db.tasks[id];
      if command != "" && command != t.command {
        return;
      }
      if c.operation != "" && c.operation != "backup" {
        return;
      }
      if c.status != "" && c.status != "succeeded" {
        return;
      }
      if c.veleroKind != "Backup" || c.veleroName == "" {
        return;
      }
      if c.phase != "" && c.phase != "Completed" {
        return;
      }
      if t.veleroName != "" && t.veleroName != c.veleroName {
        return;
      }
      var metrics := CompletionMetrics(c);
      if !CompleteMetrics(metrics) {
        var _ := UpdateTaskStatus(id, Update(Exactly(Finalizing), Code("BACKUP_RESULT_INCOMPLETE"), false, Keep, Keep));
        return;
      }
      assert metrics.Some? by { MetricsPresent(metrics); }
      if t.plan == "" || c.world.planElsewhere {
        return;
      }
      var (outcome, after) := Publish(db, id, c.veleroName, metrics.value, c.world.publish);
      db := after;
      if outcome.Pending? {
        var _ := UpdateTaskStatus(id, Update(Exactly(Finalizing), NoError, false, Keep, Keep));
      }
    }

    lemma MetricsPresent(m: Option<Metrics>)
      requires CompleteMetrics(m)
      ensures m.Some?
    {
    }

    method OnCompleted(cluster: string, id: string, command: string, c: Completion)
      modifies this
      ensures db == HandleCompleted(true, old(db), cluster, id, command, c)
    {
      hide TrimSpace, UpdateTask, HandleBackupCompleted, HandleCancelCompleted;
      if TrimSpace(id) == "" {
        return;
      }
      var existing := FindTaskById(cluster, id);
      if existing.None? {
        return;
      }
      var t := existing.value;
      if t.kind.PlanCapacity? {
        if t.command != command {
          return;
        }
        if t.status != Exactly(Failed) && t.status != Exactly(Cancelled) && c.world.capacitySaved {
          var _ := UpdateTaskStatus(id, Update(Exactly(Succeeded), NoError, true, Keep, Keep));
        }
        return;
      }
      if t.kind.Backup? && ForceStoppedTask(t) {
        return;
      }
      if t.kind.BackupCancel? {
        FinishBackupCancelTask(cluster, id, c);
        return;
      }
      if t.kind.AgentUpgrade? || t.kind.VeleroUpgrade? {
        var _ := UpdateTaskStatus(id, CompletedUpdate(Exactly(Running), c, false));
        return;
      }
      if t.kind.Backup? {
        AcceptBackupCompletion(id, command, c);
        return;
      }
      FinishOther(id, c);
    }

    method FinishOther(id: string, c: Completion)
      requires id in db.tasks
      modifies this
      ensures db == HandleOtherCompleted(true, old(db), id, c)
    {
      hide UpdateTask, RemovePlan;
      var task := UpdateTaskStatus(id, CompletedUpdate(Exactly(Finalizing), c, false));
      if task.value.kind.Unregister? {
        if !c.world.unregisterFinished {
          task := UpdateTaskStatus(id, Update(Exactly(Failed), Code("PLATFORM_CLEANUP_FAILED"), true, Keep, Keep));
          return;
        }
      }
      task := UpdateTaskStatus(id, CompletedUpdate(Exactly(Succeeded), c, true));
      if task.value.kind.RetentionCleanup? {
        if task.value.trigger != "" {
          var _ := UpdateTaskStatus(task.value.trigger, Update(NO_STATUS, NoError, false, Keep, Keep));
        }
      } else if task.value.kind.ProtectionCleanup? && c.world.planRemoved {
        db := RemovePlan(db, task.value.plan);
      }
    }

    method OnFailed(cluster: string, id: string, command: string, error: ErrorCode)
      modifies this
      ensures db == HandleFailed(true, old(db), cluster, id, command, error)
    {
      hide TrimSpace, UpdateTask, ResumeTarget;
      if TrimSpace(id) == "" {
        return;
      }
      var existing := FindTaskById(cluster, id);
      if existing.None? || (command != "" && command != existing.value.command) {
        return;
      }
      if existing.value.kind.Backup? && existing.value.result.Some? {
        return;
      }
      if existing.value.kind.Backup? && ForceStoppedTask(existing.value) {
        return;
      }
      var task := UpdateTaskStatus(id, Update(Exactly(Failed), error, true, Keep, Set(None)));
      if task.value.kind.RetentionCleanup? {
        if task.value.trigger != "" {
          var _ := UpdateTaskStatus(task.value.trigger, Update(NO_STATUS, Code("RETENTION_CLEANUP_FAILED"), false, Keep, Keep));
        }
      } else if task.value.kind.BackupCancel? {
        MarkBackupCancelFailed(task.value);
      }
    }

    /** The loops over the cluster's upgrade tasks that match what the heartbeat reports. */
    method CompleteUpgradesAfterHeartbeat(cluster: string, verified: seq<string>)
      modifies this
      ensures db == HandleHeartbeat(true, old(db), cluster, verified)
    {
      hide UpdateTask, Found;
      for i := 0 to |verified|
        invariant db == HandleHeartbeat(true, old(db), cluster, verified[..i])
      {
        assert verified[..i + 1][..i] == verified[..i];
        var task := FindTaskById(cluster, verified[i]);
        if task.None? || !Upgrade(task.value.kind) || Terminal(task.value.status) {
          continue;
        }
        var _ := UpdateTaskStatus(verified[i], Update(Exactly(Succeeded), NoError, true, Keep, Keep));
      }
      assert verified[..|verified|] == verified;
    }

    /** Reads messages until the connection ends. */
    method ReadAgentMessages(ds: seq<Delivery>)
      modifies this
      ensures db == Run(true, old(db), ds)
    {
      hide HandleAccepted, HandleProgress, HandleVeleroEvent, HandleInventory, HandleCompleted, HandleFailed, HandleHeartbeat;
      for i := 0 to |ds|
        invariant db == Run(true, old(db), ds[..i])
      {
        assert ds[..i + 1][..i] == ds[..i];
        var cluster := ds[i].cluster;
        match ds[i].message
        case TaskAccepted(id, command) => OnAccepted(cluster, id, command);
        case TaskProgress(_, _, _, _, _, _) => OnProgress(cluster, ds[i].message);
        case VeleroEvent(_, _, _, _, _, _, _) => OnVeleroEvent(cluster, ds[i].message);
        case Inventory(backups) => ObserveInventoryBackups(cluster, backups);
        case TaskCompleted(id, command, c) => OnCompleted(cluster, id, command, c);
        case TaskFailed(id, command, error) => OnFailed(cluster, id, command, error);
        case Heartbeat(verified) => CompleteUpgradesAfterHeartbeat(cluster, verified);
      }
      assert ds[..|ds|] == ds;
    }
  }
}
