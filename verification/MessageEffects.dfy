/** What each agent message does to the rows of the task table, field by field and without reference to the
    functions that compute it: which messages are taken, what they write, and that they write nothing else. */
module MessageEffects {
  import opened Text
  import opened TaskStore
  import opened AgentMessages

  /** Nothing changed but the row of one task. */
  ghost predicate OnlyRow(before: Db, after: Db, id: string, row: Task) {
    after.tasks == before.tasks[id := row] && after.points == before.points
  }

  /** A slot that was reserved for the task is given back; no other reservation changes. */
  ghost predicate SlotReleased(before: Db, after: Db, id: string) {
    after.reservations ==
    if id in before.reservations && before.reservations[id].Reserved? then before.reservations[id := Released] else before.reservations
  }

  /** One update writes one row, and no slot whose data is being published changes. */
  lemma OneUpdate(db: Db, id: string, u: Update)
    requires id in db.tasks
    ensures OnlyRow(db, UpdateTask(true, db, id, u), id, UpdateRow(true, db.tasks[id], Publishing(db, id), u))
    ensures forall k :: Publishing(UpdateTask(true, db, id, u), k) == Publishing(db, k)
  {
    hide UpdateRow;
  }

  // ---------------------------------------------------------------- failures

  /** The failure is one of a task of the cluster, under its command, and not of a backup whose result is
      recorded or which is being or has been stopped. */
  ghost predicate FailureTaken(db: Db, cluster: string, id: string, command: string) {
    && TrimSpace(id) != "" && id != "" && id in db.tasks && db.tasks[id].cluster == cluster
    && (command == "" || command == db.tasks[id].command)
    && (db.tasks[id].kind.Backup? ==>
          && db.tasks[id].result.None? && !db.tasks[id].error.ForceStopped?
          && !db.tasks[id].status.word.Canceling? && !db.tasks[id].status.word.Canceled?)
  }

  lemma FailureIgnored(db: Db, cluster: string, id: string, command: string, error: ErrorCode)
    requires !FailureTaken(db, cluster, id, command)
    ensures Handle(true, db, cluster, TaskFailed(id, command, error)) == db
  {
    hide TrimSpace;
  }

  /** The row of a task that fails: failed and stamped with the agent's error, if nothing is being published;
      finalizing otherwise; and as it was, but for the running sample, if it was stamped already. */
  function FailedRow(t: Task, publishing: bool, error: ErrorCode): Task {
    if t.completed then t.(sample := None)
    else if publishing then t.(status := Status(Finalizing, true), error := error, sample := None)
    else t.(status := Status(Failed, true), error := error, completed := true, sample := None)
  }

  /** A failure of any task but a retention cleanup or a force stop changes that task's row alone. */
  lemma FailureEnds(db: Db, cluster: string, id: string, command: string, error: ErrorCode)
    requires FailureTaken(db, cluster, id, command) && !db.tasks[id].kind.RetentionCleanup? && !db.tasks[id].kind.BackupCancel?
    ensures var r := Handle(true, db, cluster, TaskFailed(id, command, error));
            && OnlyRow(db, r, id, FailedRow(db.tasks[id], Publishing(db, id), error))
            && (!db.tasks[id].completed && !Publishing(db, id) ==> SlotReleased(db, r, id))
  {
    hide TrimSpace;
  }

  /** A failed retention cleanup also leaves a warning on the backup that triggered it, while that is open. */
  lemma RetentionFailureWarns(db: Db, cluster: string, id: string, command: string, error: ErrorCode)
    requires FailureTaken(db, cluster, id, command) && db.tasks[id].kind.RetentionCleanup? && db.tasks[id].trigger != id
    ensures var r, trigger := Handle(true, db, cluster, TaskFailed(id, command, error)), db.tasks[id].trigger;
            var failed := db.tasks[id := FailedRow(db.tasks[id], Publishing(db, id), error)];
            && r.points == db.points
            && r.tasks ==
               if trigger != "" && trigger in db.tasks && !db.tasks[trigger].completed
               then failed[trigger := db.tasks[trigger].(error := Code("RETENTION_CLEANUP_FAILED"))] else failed
  {
    hide TrimSpace, UpdateTask;
    var u := Update(Exactly(Failed), error, true, Keep, Set(None));
    OneUpdate(db, id, u);
    var failed := UpdateTask(true, db, id, u);
    assert failed.tasks[id].trigger == db.tasks[id].trigger && failed.tasks[id].kind == db.tasks[id].kind;
    WarnEffect(failed, failed.tasks[id].trigger, Code("RETENTION_CLEANUP_FAILED"));
  }

  lemma ResumeEffect(db: Db, cluster: string, target: string)
    ensures var r := ResumeTarget(true, db, cluster, target);
            && r.points == db.points
            && r.tasks ==
               if target != "" && target in db.tasks && db.tasks[target].cluster == cluster && db.tasks[target].kind.Backup?
                  && !db.tasks[target].completed && db.tasks[target].status == Status(Canceling, true)
               then db.tasks[target := db.tasks[target].(status := Status(Running, true), error := Code("SYNC_FORCE_STOP_FAILED"))] else db.tasks
  {
  }

  /** A failed force stop also lets its backup run on, if that waits to be stopped. */
  lemma StopFailureResumes(db: Db, cluster: string, id: string, command: string, error: ErrorCode)
    requires FailureTaken(db, cluster, id, command) && db.tasks[id].kind.BackupCancel?
    ensures var r, target := Handle(true, db, cluster, TaskFailed(id, command, error)), db.tasks[id].target;
            var failed := db.tasks[id := FailedRow(db.tasks[id], Publishing(db, id), error)];
            && r.points == db.points
            && r.tasks ==
               if target != "" && target in db.tasks && db.tasks[target].cluster == cluster && db.tasks[target].kind.Backup?
                  && !db.tasks[target].completed && db.tasks[target].status == Status(Canceling, true)
               then failed[target := db.tasks[target].(status := Status(Running, true), error := Code("SYNC_FORCE_STOP_FAILED"))] else failed
  {
    hide TrimSpace, UpdateTask;
    var u := Update(Exactly(Failed), error, true, Keep, Set(None));
    OneUpdate(db, id, u);
    var failed := UpdateTask(true, db, id, u);
    var t := failed.tasks[id];
    assert t.target == db.tasks[id].target && t.cluster == cluster && t.kind == db.tasks[id].kind;
    ResumeEffect(failed, cluster, t.target);
  }

  // ---------------------------------------------------------------- completions

  ghost predicate CompletionFinds(db: Db, cluster: string, id: string) {
    TrimSpace(id) != "" && id != "" && id in db.tasks && db.tasks[id].cluster == cluster
  }

  lemma CompletionIgnored(db: Db, cluster: string, id: string, command: string, c: Completion)
    requires !CompletionFinds(db, cluster, id)
    ensures Handle(true, db, cluster, TaskCompleted(id, command, c)) == db
  {
    hide TrimSpace;
  }

  /** The row of a task that succeeds; one stamped already keeps how it ended. */
  function SucceededRow(t: Task, c: Completion): Task {
    var noted := t.(sample := None, veleroName := if c.veleroName == "" then t.veleroName else c.veleroName);
    if t.completed then noted else noted.(status := Status(Succeeded, true), error := NoError, completed := true)
  }

  /** Kinds whose completion is just that. */
  predicate Plain(k: Kind) {
    k.StorageSync? || k.ScheduleSync? || k.Restore? || k.Drill? || k.Takeover? || k.OtherKind?
  }

  /** The two updates of a general completion leave the row that has succeeded. */
  lemma FinishedRow(db: Db, id: string, c: Completion)
    requires id in db.tasks
    ensures var finalizing := UpdateTask(true, db, id, CompletedUpdate(Exactly(Finalizing), c, false));
            var done := UpdateTask(true, finalizing, id, CompletedUpdate(Exactly(Succeeded), c, true));
            && id in finalizing.tasks && OnlyRow(db, done, id, SucceededRow(db.tasks[id], c))
            && forall k :: Publishing(done, k) == Publishing(db, k)
  {
    hide UpdateTask;
    OneUpdate(db, id, CompletedUpdate(Exactly(Finalizing), c, false));
    var finalizing := UpdateTask(true, db, id, CompletedUpdate(Exactly(Finalizing), c, false));
    OneUpdate(finalizing, id, CompletedUpdate(Exactly(Succeeded), c, true));
  }

  lemma CompletionEnds(db: Db, cluster: string, id: string, command: string, c: Completion)
    requires CompletionFinds(db, cluster, id)
    requires Plain(db.tasks[id].kind) || (db.tasks[id].kind.Unregister? && c.world.unregisterFinished)
             || (db.tasks[id].kind.ProtectionCleanup? && !c.world.planRemoved)
    ensures OnlyRow(db, Handle(true, db, cluster, TaskCompleted(id, command, c)), id, SucceededRow(db.tasks[id], c))
  {
    hide TrimSpace, UpdateTask, UpdateRow;
    FinishedRow(db, id, c);
  }

  /** An unregister whose records could not be removed has failed, although the agent completed it. */
  lemma UnregisterCompletionFails(db: Db, cluster: string, id: string, command: string, c: Completion)
    requires CompletionFinds(db, cluster, id) && db.tasks[id].kind.Unregister? && !c.world.unregisterFinished
    requires !db.tasks[id].completed && !Publishing(db, id)
    ensures var t := db.tasks[id];
            OnlyRow(db, Handle(true, db, cluster, TaskCompleted(id, command, c)), id,
                    t.(status := Status(Failed, true), error := Code("PLATFORM_CLEANUP_FAILED"), completed := true, sample := None,
                       veleroName := if c.veleroName == "" then t.veleroName else c.veleroName))
  {
    hide TrimSpace;
  }

  lemma WarnEffect(db: Db, trigger: string, error: ErrorCode)
    ensures var r := WarnTrigger(true, db, trigger, error);
            && r.points == db.points
            && r.tasks == if trigger != "" && trigger in db.tasks && !db.tasks[trigger].completed
                          then db.tasks[trigger := db.tasks[trigger].(error := error)] else db.tasks
  {
    if trigger in db.tasks { assert db.tasks[trigger := db.tasks[trigger]] == db.tasks; }
  }

  /** A completed retention cleanup takes the warning off the backup that triggered it, while that is open. */
  lemma RetentionCompletionClears(db: Db, cluster: string, id: string, command: string, c: Completion)
    requires CompletionFinds(db, cluster, id) && db.tasks[id].kind.RetentionCleanup? && db.tasks[id].trigger != id
    ensures var r, trigger := Handle(true, db, cluster, TaskCompleted(id, command, c)), db.tasks[id].trigger;
            var done := db.tasks[id := SucceededRow(db.tasks[id], c)];
            && r.points == db.points
            && r.tasks ==
               if trigger != "" && trigger in db.tasks && !db.tasks[trigger].completed
               then done[trigger := db.tasks[trigger].(error := NoError)] else done
  {
    hide TrimSpace, UpdateTask, UpdateRow;
    FinishedRow(db, id, c);
    var done := UpdateTask(true, UpdateTask(true, db, id, CompletedUpdate(Exactly(Finalizing), c, false)), id, CompletedUpdate(Exactly(Succeeded), c, true));
    WarnEffect(done, done.tasks[id].trigger, NoError);
  }

  /** The completion that removes a plan leaves exactly the rows and points of the others. */
  lemma PlanRemovalLeavesOthers(db: Db, cluster: string, id: string, command: string, c: Completion)
    requires CompletionFinds(db, cluster, id) && db.tasks[id].kind.ProtectionCleanup? && c.world.planRemoved
    ensures var r, plan := Handle(true, db, cluster, TaskCompleted(id, command, c)), db.tasks[id].plan;
            && (forall k :: k in r.tasks <==> k in db.tasks && db.tasks[k].plan != plan)
            && (forall k :: k in r.tasks ==> r.tasks[k] == db.tasks[k])
            && (forall k :: k in r.points <==> k in db.points && !(db.points[k] in db.tasks && db.tasks[db.points[k]].plan == plan))
            && (forall k :: k in r.points ==> r.points[k] == db.points[k])
  {
    hide TrimSpace, UpdateTask, UpdateRow, RemovePlan;
    FinishedRow(db, id, c);
  }

  /** An upgrade is not over when the agent has completed it: the new agent must report back. */
  lemma UpgradeCompletionWaits(db: Db, cluster: string, id: string, command: string, c: Completion)
    requires CompletionFinds(db, cluster, id) && (db.tasks[id].kind.AgentUpgrade? || db.tasks[id].kind.VeleroUpgrade?)
    ensures var t := db.tasks[id];
            var noted := t.(sample := None, veleroName := if c.veleroName == "" then t.veleroName else c.veleroName);
            OnlyRow(db, Handle(true, db, cluster, TaskCompleted(id, command, c)), id,
                    if t.completed then noted else noted.(status := Status(Running, true), error := NoError))
  {
    hide TrimSpace;
  }

  /** A capacity measurement is over when it was saved, under its command, and neither failed nor cancelled. */
  lemma CapacityCompletion(db: Db, cluster: string, id: string, command: string, c: Completion)
    requires CompletionFinds(db, cluster, id) && db.tasks[id].kind.PlanCapacity?
    ensures var r, t := Handle(true, db, cluster, TaskCompleted(id, command, c)), db.tasks[id];
            OnlyRow(db, r, id,
                    if t.command == command && c.world.capacitySaved && t.status != Status(Failed, true) && t.status != Status(Cancelled, true) && !t.completed
                    then t.(status := Status(Succeeded, true), error := NoError, completed := true) else t)
  {
    hide TrimSpace;
    assert db.tasks[id := db.tasks[id]] == db.tasks;
  }

  lemma StopEffect(db: Db, cluster: string, target: string, name: string)
    ensures var r := StopTarget(true, db, cluster, target, name);
            && r.points == db.points
            && r.tasks ==
               if target != "" && target in db.tasks && db.tasks[target].cluster == cluster && db.tasks[target].kind.Backup? && !db.tasks[target].completed
               then db.tasks[target :=
                      if Publishing(db, target)
                      then db.tasks[target].(status := Status(Finalizing, true), error := ForceStopped, veleroName := name)
                      else db.tasks[target].(status := Status(Canceled, true), error := ForceStopped, completed := true, veleroName := name)]
               else db.tasks
    ensures var r := StopTarget(true, db, cluster, target, name);
            target in db.tasks && r.tasks != db.tasks && !Publishing(db, target) ==> SlotReleased(db, r, target)
  {
  }

  /** A force stop succeeds, and stops its backup if that is open: for good, unless its data is being
      published. */
  lemma StopCompletion(db: Db, cluster: string, id: string, command: string, c: Completion)
    requires CompletionFinds(db, cluster, id) && db.tasks[id].kind.BackupCancel?
    ensures var r := Handle(true, db, cluster, TaskCompleted(id, command, c));
            var cancel := SucceededRow(db.tasks[id], c);
            var target := if cancel.target != "" then cancel.target else c.targetTaskId;
            var name := if cancel.veleroName != "" then cancel.veleroName else c.backupName;
            && r.points == db.points
            && r.tasks ==
               if target != "" && target in db.tasks && db.tasks[target].cluster == cluster && db.tasks[target].kind.Backup? && !db.tasks[target].completed
               then db.tasks[id := cancel][target :=
                      if Publishing(db, target)
                      then db.tasks[target].(status := Status(Finalizing, true), error := ForceStopped, veleroName := name)
                      else db.tasks[target].(status := Status(Canceled, true), error := ForceStopped, completed := true, veleroName := name)]
               else db.tasks[id := cancel]
  {
    hide TrimSpace, UpdateTask;
    var u := CompletedUpdate(Exactly(Succeeded), c, true);
    OneUpdate(db, id, u);
    var after := UpdateTask(true, db, id, u);
    var cancel := after.tasks[id];
    assert cancel == SucceededRow(db.tasks[id], c);
    StopEffect(after, cluster, if cancel.target != "" then cancel.target else c.targetTaskId, if cancel.veleroName != "" then cancel.veleroName else c.backupName);
  }

  // ---------------------------------------------------------------- completions of backups

  /** The completion is one of this backup, whatever its measurements. */
  ghost predicate OfBackup(t: Task, command: string, c: Completion) {
    && (command == "" || command == t.command) && (c.operation == "" || c.operation == "backup")
    && (c.status == "" || c.status == "succeeded") && (c.phase == "" || c.phase == "Completed")
    && c.veleroKind == "Backup" && c.veleroName != "" && (t.veleroName == "" || t.veleroName == c.veleroName)
  }

  /** The agent's own metrics count as they are; without them the total is what the backup holds and what was
      uploaded is what is new in it. */
  lemma MetricsAre(c: Completion)
    ensures c.metrics.Some? ==> CompletionMetrics(c) == c.metrics
    ensures c.metrics.None? && CompleteMetrics(CompletionMetrics(c)) ==>
              c.size.uploadedBytes.Some? && CompletionMetrics(c) == Some(Metrics(2, true, c.size.totalBytes, true, c.size.uploadedBytes.value))
    ensures forall m: Metrics :: CompleteMetrics(Some(m)) <==> m.schemaVersion == 2 && m.logicalKnown && m.logicalBytes > 0 && m.newDataKnown && m.newDataBytes >= 0
  {
  }

  /** A completion that is not the backup's, or of a backup being stopped, changes nothing; one without
      complete measurements leaves the backup finalizing. */
  lemma BackupCompletionWaits(db: Db, cluster: string, id: string, command: string, c: Completion)
    requires CompletionFinds(db, cluster, id) && db.tasks[id].kind.Backup?
    ensures var r, t := Handle(true, db, cluster, TaskCompleted(id, command, c)), db.tasks[id];
            && (!OfBackup(t, command, c) || t.status.word.Canceling? || t.status.word.Canceled? || t.error.ForceStopped? ==> r == db)
            && (OfBackup(t, command, c) && !t.status.word.Canceling? && !t.status.word.Canceled? && !t.error.ForceStopped?
                && !CompleteMetrics(CompletionMetrics(c)) ==>
                  OnlyRow(db, r, id, if t.completed then t else t.(status := Status(Finalizing, true), error := Code("BACKUP_RESULT_INCOMPLETE"))))
  {
    hide TrimSpace, CompletionMetrics, CompleteMetrics;
    assert db.tasks[id := db.tasks[id]] == db.tasks;
  }

  /** A measured completion of an open backup that has to wait for a point to be replaced records its result
      and keeps its slot: the backup is finalizing and its data is ready. */
  lemma PublicationWaits(db: Db, cluster: string, id: string, command: string, c: Completion)
    requires CompletionFinds(db, cluster, id) && db.tasks[id].kind.Backup? && OfBackup(db.tasks[id], command, c)
    requires !db.tasks[id].completed && db.tasks[id].result.None? && Active(db.tasks[id].status) && !ForceStoppedTask(db.tasks[id])
    requires CompleteMetrics(CompletionMetrics(c)) && db.tasks[id].plan != "" && !c.world.planElsewhere
    requires !c.world.publish.fails && c.world.publish.replacementPending && (cluster, c.veleroName) !in db.points
    requires id in db.reservations && db.reservations[id].Reserved?
    ensures var r := Handle(true, db, cluster, TaskCompleted(id, command, c));
            && OnlyRow(db, r, id, db.tasks[id].(status := Status(Finalizing, true), error := NoError, veleroName := c.veleroName, sample := None,
                                                result := Some(BackupResult(c.veleroName, CompletionMetrics(c).value))))
            && r.reservations == db.reservations[id := DataReady]
  {
    hide TrimSpace, CompletionMetrics;
  }

  /** A measured completion that nothing stands in the way of publishes: the row, the point and the slot. */
  lemma PublicationEnds(db: Db, cluster: string, id: string, command: string, c: Completion)
    requires CompletionFinds(db, cluster, id) && db.tasks[id].kind.Backup? && OfBackup(db.tasks[id], command, c)
    requires !db.tasks[id].completed && db.tasks[id].result.None? && Active(db.tasks[id].status) && !ForceStoppedTask(db.tasks[id])
    requires CompleteMetrics(CompletionMetrics(c)) && db.tasks[id].plan != "" && !c.world.planElsewhere
    requires !c.world.publish.fails && !c.world.publish.replacementPending && (cluster, c.veleroName) !in db.points
    requires if id in db.reservations then !db.reservations[id].Released? else !c.world.publish.quota.Full?
    ensures var r := Handle(true, db, cluster, TaskCompleted(id, command, c));
            && r.tasks == db.tasks[id := db.tasks[id].(status := Status(Succeeded, true), error := NoError, completed := true, hasPoint := true,
                                                      veleroName := c.veleroName, sample := None,
                                                      result := Some(BackupResult(c.veleroName, CompletionMetrics(c).value)))]
            && r.points == db.points[(cluster, c.veleroName) := id]
            && r.reservations == if id in db.reservations || c.world.publish.quota.Slot? then db.reservations[id := Published] else db.reservations
  {
    hide TrimSpace, CompletionMetrics;
  }

  // ---------------------------------------------------------------- accepted, progress, observations

  /** Every status the platform knows is active or terminal, and none is both. */
  lemma ActiveOrTerminal(s: Status)
    requires !s.word.Blank? && !s.word.Other?
    ensures Active(s) <==> !Terminal(s)
    ensures Terminal(s) <==> s.word in {Succeeded, Failed, Canceled, Cancelled}
  {
  }

  /** An accepted message marks an open task without a result accepted, and no other. */
  lemma AcceptedEffect(db: Db, cluster: string, id: string, command: string)
    ensures var r := Handle(true, db, cluster, TaskAccepted(id, command));
            if TrimSpace(id) != "" && id != "" && id in db.tasks && db.tasks[id].cluster == cluster
               && (command == "" || db.tasks[id].command == "" || command == db.tasks[id].command)
               && !db.tasks[id].completed && db.tasks[id].result.None?
            then OnlyRow(db, r, id, db.tasks[id].(status := Status(Accepted, true), error := NoError))
            else r == db
  {
    hide TrimSpace;
  }

  /** The sample is newer than the stored one: by observation time, or without times by sequence number. */
  ghost predicate Newer(incoming: Sample, stored: Option<Sample>) {
    stored.Some? ==>
      if incoming.observedAt != 0 && stored.value.observedAt != 0 then incoming.observedAt > stored.value.observedAt
      else incoming.sequence <= 0 || stored.value.sequence <= 0 || incoming.sequence > stored.value.sequence
  }

  /** A progress message writes its status to an open task of the cluster, under its command, unless it is a
      backup already finalizing or its sample is stale; it stores its sample, and readiness drops the stored one. */
  lemma ProgressEffect(db: Db, cluster: string, m: Message)
    requires m.TaskProgress?
    ensures var r, id := Handle(true, db, cluster, m), m.taskId;
            if id != "" && id in db.tasks && db.tasks[id].cluster == cluster && !db.tasks[id].completed && Active(db.tasks[id].status)
               && (m.command == "" || db.tasks[id].command == "" || m.command == db.tasks[id].command) && Active(m.status)
               && !(db.tasks[id].kind.Backup? && (db.tasks[id].status == Status(Finalizing, true) || db.tasks[id].result.Some?))
               && (m.sample.Some? ==> Newer(m.sample.value, db.tasks[id].sample))
            then OnlyRow(db, r, id, db.tasks[id].(
                           status := m.status, error := NoError, veleroName := if m.veleroName == "" then db.tasks[id].veleroName else m.veleroName,
                           sample := if m.readiness then None else if m.sample.Some? then m.sample else db.tasks[id].sample))
            else r == db
  {
  }

  /** A Velero event is noted on the open backup of its plan and name, by clearing its error, and changes nothing
      else. */
  lemma VeleroEventEffect(db: Db, cluster: string, m: Message)
    requires m.VeleroEvent?
    ensures var r := Handle(true, db, cluster, m);
            var id := if TrimSpace(m.taskId) == "" then TrimSpace(m.labelTaskId) else m.taskId;
            if m.backupName != "" && m.planId != "" && m.planIsHere && id != "" && !m.deleting && id in db.tasks && db.tasks[id].cluster == cluster
               && db.tasks[id].plan == m.planId && db.tasks[id].kind.Backup? && (m.command == "" || m.command == db.tasks[id].command)
               && (m.labelTaskId == "" || m.labelTaskId == id) && (db.tasks[id].veleroName == "" || db.tasks[id].veleroName == m.backupName)
               && !db.tasks[id].completed
            then OnlyRow(db, r, id, db.tasks[id].(error := NoError))
            else r == db
  {
    hide TrimSpace;
  }

  /** The listed backup is that of the task: an open backup of the cluster, of its plan and name. */
  ghost predicate ListsTask(db: Db, cluster: string, b: ListedBackup, id: string) {
    && b.taskLabel == id && id != "" && id in db.tasks && db.tasks[id].cluster == cluster && db.tasks[id].kind.Backup? && !db.tasks[id].completed
    && db.tasks[id].plan == b.planLabel && (db.tasks[id].veleroName == "" || db.tasks[id].veleroName == b.name)
  }

  /** An inventory clears the error of exactly the open backups it lists. */
  lemma {:induction false} InventoryEffect(db: Db, cluster: string, backups: seq<ListedBackup>)
    ensures var r := Handle(true, db, cluster, Inventory(backups));
            && r.points == db.points && r.reservations == db.reservations && r.tasks.Keys == db.tasks.Keys
            && forall id :: id in db.tasks ==>
                 r.tasks[id] == if exists b <- backups :: ListsTask(db, cluster, b, id) then db.tasks[id].(error := NoError) else db.tasks[id]
  {
    if backups != [] {
      var n := |backups| - 1;
      var init, b := backups[..n], backups[n];
      assert backups == init + [b];
      InventoryEffect(db, cluster, init);
      ObserveOne(db, HandleInventory(true, db, cluster, init), cluster, init, b);
    }
  }

  lemma ObserveOne(db: Db, mid: Db, cluster: string, init: seq<ListedBackup>, b: ListedBackup)
    requires mid.points == db.points && mid.reservations == db.reservations && mid.tasks.Keys == db.tasks.Keys
    requires forall id :: id in db.tasks ==>
               mid.tasks[id] == if exists b <- init :: ListsTask(db, cluster, b, id) then db.tasks[id].(error := NoError) else db.tasks[id]
    ensures var r := if ListedTaken(mid, cluster, b) then Observe(true, mid, b.taskLabel) else mid;
            && r.points == db.points && r.reservations == db.reservations && r.tasks.Keys == db.tasks.Keys
            && forall id :: id in db.tasks ==>
                 r.tasks[id] == if exists x <- init + [b] :: ListsTask(db, cluster, x, id) then db.tasks[id].(error := NoError) else db.tasks[id]
  {
    var r := if ListedTaken(mid, cluster, b) then Observe(true, mid, b.taskLabel) else mid;
    forall id | id in db.tasks
      ensures id in r.tasks && r.tasks[id] == if exists x <- init + [b] :: ListsTask(db, cluster, x, id) then db.tasks[id].(error := NoError) else db.tasks[id]
    {
      assert (exists x <- init + [b] :: ListsTask(db, cluster, x, id)) <==> (exists x <- init :: ListsTask(db, cluster, x, id)) || ListsTask(db, cluster, b, id) by {
        assert forall x :: x in init + [b] <==> x in init || x == b;
      }
      assert ListsTask(db, cluster, b, id) <==> b.taskLabel == id && ListedTaken(mid, cluster, b);
    }
  }

  /** The upgrade is one of the cluster and not over. */
  ghost predicate UpgradeWaits(db: Db, cluster: string, id: string) {
    && id != "" && id in db.tasks && db.tasks[id].cluster == cluster && (db.tasks[id].kind.AgentUpgrade? || db.tasks[id].kind.VeleroUpgrade?)
    && !db.tasks[id].completed
    && !db.tasks[id].status.word.Succeeded? && !db.tasks[id].status.word.Failed? && !db.tasks[id].status.word.Canceled? && !db.tasks[id].status.word.Cancelled?
  }

  /** A heartbeat ends exactly the waiting upgrades of the cluster that it verifies, with success. */
  lemma {:induction false} HeartbeatEffect(db: Db, cluster: string, verified: seq<string>)
    ensures var r := Handle(true, db, cluster, Heartbeat(verified));
            && r.points == db.points && r.tasks.Keys == db.tasks.Keys
            && forall id :: id in db.tasks ==>
                 r.tasks[id] == if id in verified && UpgradeWaits(db, cluster, id)
                                then db.tasks[id].(status := Status(Succeeded, true), error := NoError, completed := true) else db.tasks[id]
  {
    if verified != [] {
      var n := |verified| - 1;
      assert verified == verified[..n] + [verified[n]];
      HeartbeatEffect(db, cluster, verified[..n]);
      VerifyOne(db, HandleHeartbeat(true, db, cluster, verified[..n]), cluster, verified[..n], verified[n]);
    }
  }

  lemma VerifyOne(db: Db, mid: Db, cluster: string, init: seq<string>, k: string)
    requires mid.points == db.points && mid.tasks.Keys == db.tasks.Keys
    requires forall id :: id in db.tasks ==>
               mid.tasks[id] == if id in init && UpgradeWaits(db, cluster, id)
                                then db.tasks[id].(status := Status(Succeeded, true), error := NoError, completed := true) else db.tasks[id]
    ensures var r := if UpgradeOpen(mid, cluster, k) then UpdateTask(true, mid, k, Update(Exactly(Succeeded), NoError, true, Keep, Keep)) else mid;
            && r.points == db.points && r.tasks.Keys == db.tasks.Keys
            && forall id :: id in db.tasks ==>
                 r.tasks[id] == if id in init + [k] && UpgradeWaits(db, cluster, id)
                                then db.tasks[id].(status := Status(Succeeded, true), error := NoError, completed := true) else db.tasks[id]
  {
    assert forall x :: x in init + [k] <==> x in init || x == k;
  }
}
