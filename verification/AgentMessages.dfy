/** The agent message loop: how accepted, progress, Velero, inventory, completed and failed messages,
    late, duplicated or reordered, act on the persisted tasks, and what every run of them keeps. */
module AgentMessages {
  import opened Text
  import opened TaskStore

  // ---------------------------------------------------------------- messages

  /** One Velero backup as an inventory report lists it. */
  datatype ListedBackup = ListedBackup(name: string, taskLabel: string, planLabel: string)

  /** The size report of an agent that does not send complete metrics itself. */
  datatype SizeReport = SizeReport(
    allIncrementalKnown: Option<bool>, volumeCount: Option<int>, incrementalKnownCount: int,
    uploadedBytes: Option<int>, totalBytes: int)

  datatype Message =
    | TaskAccepted(taskId: string, command: string)
    | TaskProgress(taskId: string, command: string, status: Status, sample: Option<Sample>, readiness: bool, veleroName: string)
    | VeleroEvent(backupName: string, planId: string, taskId: string, labelTaskId: string, command: string, deleting: bool, planIsHere: bool)
    | Inventory(backups: seq<ListedBackup>)
    | TaskCompleted(taskId: string, command: string, report: Completion)
    | TaskFailed(taskId: string, command: string, error: ErrorCode)
    /** `verified` are the upgrade tasks whose target the reported images, versions and readiness match. */
    | Heartbeat(verified: seq<string>)

  datatype Completion = Completion(
    operation: string, status: string, veleroKind: string, veleroName: string, phase: string,
    metrics: Option<Metrics>, size: SizeReport, targetTaskId: string, backupName: string, world: World)

  /** What a completion meets outside the task table. */
  datatype World = World(
    publish: PublishWorld, planElsewhere: bool, capacitySaved: bool, unregisterFinished: bool, planRemoved: bool)

  predicate ForceStoppedTask(t: Task) {
    t.status.word.Canceling? || t.status.word.Canceled? || t.error.ForceStopped?
  }

  function NameEdit(name: string): Edit<string> {
    if name == "" then Keep else Set(name)
  }

  /** Two command ids disagree, an absent one agreeing with everything. */
  predicate Mismatch(a: string, b: string) {
    a != "" && b != "" && a != b
  }

  // ---------------------------------------------------------------- completion metrics

  /** `backupCompletionMetrics`: the agent's own metrics, or those adapted from a full size report. */
  function CompletionMetrics(c: Completion): Option<Metrics> {
    if c.metrics.Some? then c.metrics
    else
      var s := c.size;
      var allKnown :=
        if s.allIncrementalKnown.Some? then s.allIncrementalKnown.value
        else s.volumeCount.Some? && s.volumeCount.value == s.incrementalKnownCount;
      if !allKnown || s.uploadedBytes.None? || s.totalBytes <= 0 then None
      else Some(Metrics(2, true, s.totalBytes, true, s.uploadedBytes.value))
  }

  /** Without metrics of its own, a completion is measured completely exactly when every volume's
      increment is known and the byte counts are there and make sense. */
  lemma AdaptedMetricsCompleteIff(c: Completion)
    requires c.metrics.None?
    ensures CompleteMetrics(CompletionMetrics(c)) <==>
            && (c.size.allIncrementalKnown == Some(true)
                || (c.size.allIncrementalKnown.None? && c.size.volumeCount == Some(c.size.incrementalKnownCount)))
            && c.size.totalBytes > 0 && c.size.uploadedBytes.Some? && c.size.uploadedBytes.value >= 0
  {
  }

  // ---------------------------------------------------------------- the handlers, as functions of the store

  function HandleAccepted(freeze: bool, db: Db, cluster: string, taskId: string, command: string): Db {
    if TrimSpace(taskId) == "" || !Found(db, cluster, taskId) || Mismatch(command, db.tasks[taskId].command) then db
    else if db.tasks[taskId].completed || db.tasks[taskId].result.Some? then db
    else UpdateTask(freeze, db, taskId, Update(Exactly(Accepted), NoError, false, Keep, Keep))
  }

  /** `staleSizeProgress`. */
  predicate StaleSample(current: Option<Sample>, incoming: Sample) {
    var observedAt := if current.Some? then current.value.observedAt else 0;
    var sequence := if current.Some? then current.value.sequence else 0;
    if incoming.observedAt != 0 && observedAt != 0 then incoming.observedAt <= observedAt
    else sequence > 0 && incoming.sequence > 0 && incoming.sequence <= sequence
  }

  /** The sample a progress message leaves: readiness validation ends the transfer. */
  function SampleEdit(sample: Option<Sample>, readiness: bool): Edit<Option<Sample>> {
    if readiness then Set(None) else if sample.Some? then Set(sample) else Keep
  }

  predicate ProgressTaken(db: Db, cluster: string, m: Message)
    requires m.TaskProgress?
  {
    && Found(db, cluster, m.taskId)
    && var t := db.tasks[m.taskId];
    && !t.completed && Active(t.status) && !Mismatch(m.command, t.command) && Active(m.status)
    && !(t.kind.Backup? && (t.status == Exactly(Finalizing) || t.result.Some?))
    && !(m.sample.Some? && StaleSample(t.sample, m.sample.value))
  }

  function HandleProgress(freeze: bool, db: Db, cluster: string, m: Message): Db
    requires m.TaskProgress?
  {
    if ProgressTaken(db, cluster, m)
    then UpdateTask(freeze, db, m.taskId, Update(m.status, NoError, false, NameEdit(m.veleroName), SampleEdit(m.sample, m.readiness)))
    else db
  }

  /** `recordBackupObservation`: a payload note that clears the error of a task still running. */
  function Observe(freeze: bool, db: Db, id: string): Db {
    UpdateTask(freeze, db, id, Update(NO_STATUS, NoError, false, Keep, Keep))
  }

  /** The task a Velero event is about: its own task id, or else the label on the resource. */
  function EventTaskId(taskId: string, onResource: string): string {
    if TrimSpace(taskId) == "" then TrimSpace(onResource) else taskId
  }

  function HandleVeleroEvent(freeze: bool, db: Db, cluster: string, m: Message): Db
    requires m.VeleroEvent?
  {
    var id := EventTaskId(m.taskId, m.labelTaskId);
    if m.backupName == "" || m.planId == "" || !m.planIsHere || id == "" || m.deleting then db
    else if id !in db.tasks then db
    else
      var t := db.tasks[id];
      if t.cluster != cluster || t.plan != m.planId || !t.kind.Backup? then db
      else if m.command != "" && m.command != t.command then db
      else if m.labelTaskId != "" && m.labelTaskId != id then db
      else if t.veleroName != "" && t.veleroName != m.backupName then db
      else if t.completed then db
      else Observe(freeze, db, id)
  }

  predicate ListedTaken(db: Db, cluster: string, b: ListedBackup) {
    && b.taskLabel != "" && Found(db, cluster, b.taskLabel)
    && var t := db.tasks[b.taskLabel];
    t.kind.Backup? && !t.completed && t.plan == b.planLabel && (t.veleroName == "" || t.veleroName == b.name)
  }

  function HandleInventory(freeze: bool, db: Db, cluster: string, backups: seq<ListedBackup>): Db {
    if backups == [] then db
    else
      var n := |backups| - 1;
      var before := HandleInventory(freeze, db, cluster, backups[..n]);
      if ListedTaken(before, cluster, backups[n]) then Observe(freeze, before, backups[n].taskLabel) else before
  }

  /** The completion patch: final metrics supersede the running sample. */
  function CompletedUpdate(status: Status, c: Completion, done: bool): Update {
    Update(status, NoError, done, NameEdit(c.veleroName), Set(None))
  }

  /** The part of `finishBackupCancelTask` that stops the backup. */
  function StopTarget(freeze: bool, db: Db, cluster: string, target: string, name: string): Db {
    if !Found(db, cluster, target) || !db.tasks[target].kind.Backup? || db.tasks[target].completed then db
    else UpdateTask(freeze, db, target, Update(Exactly(Canceled), ForceStopped, true, Set(name), Keep))
  }

  function HandleCancelCompleted(freeze: bool, db: Db, cluster: string, id: string, c: Completion): Db
    requires id in db.tasks
  {
    var after := UpdateTask(freeze, db, id, CompletedUpdate(Exactly(Succeeded), c, true));
    var cancel := after.tasks[id];
    StopTarget(freeze, after, cluster, if cancel.target != "" then cancel.target else c.targetTaskId,
               if cancel.veleroName != "" then cancel.veleroName else c.backupName)
  }

  /** `acceptBackupCompletion`. */
  function HandleBackupCompleted(freeze: bool, db: Db, id: string, command: string, c: Completion): Db
    requires id in db.tasks
  {
    var t := db.tasks[id];
    if command != "" && command != t.command then db
    else if c.operation != "" && c.operation != "backup" then db
    else if c.status != "" && c.status != "succeeded" then db
    else if c.veleroKind != "Backup" || c.veleroName == "" then db
    else if c.phase != "" && c.phase != "Completed" then db
    else if t.veleroName != "" && t.veleroName != c.veleroName then db
    else
      var metrics := CompletionMetrics(c);
      if !CompleteMetrics(metrics) then
        UpdateTask(freeze, db, id, Update(Exactly(Finalizing), Code("BACKUP_RESULT_INCOMPLETE"), false, Keep, Keep))
      else if t.plan == "" || c.world.planElsewhere then db
      else
        var (outcome, after) := Publish(db, id, c.veleroName, metrics.value, c.world.publish);
        if outcome.Pending? then UpdateTask(freeze, after, id, Update(Exactly(Finalizing), NoError, false, Keep, Keep)) else after
  }

  /** Clears or sets the warning of the backup that triggered a retention cleanup. */
  function WarnTrigger(freeze: bool, db: Db, trigger: string, error: ErrorCode): Db {
    if trigger == "" then db else UpdateTask(freeze, db, trigger, Update(NO_STATUS, error, false, Keep, Keep))
  }

  function HandleOtherCompleted(freeze: bool, db: Db, id: string, c: Completion): Db
    requires id in db.tasks
  {
    var finalizing := UpdateTask(freeze, db, id, CompletedUpdate(Exactly(Finalizing), c, false));
    var kind := db.tasks[id].kind;
    if kind.Unregister? && !c.world.unregisterFinished then
      UpdateTask(freeze, finalizing, id, Update(Exactly(Failed), Code("PLATFORM_CLEANUP_FAILED"), true, Keep, Keep))
    else
      var done := UpdateTask(freeze, finalizing, id, CompletedUpdate(Exactly(Succeeded), c, true));
      if kind.RetentionCleanup? then WarnTrigger(freeze, done, done.tasks[id].trigger, NoError)
      else if kind.ProtectionCleanup? && c.world.planRemoved then RemovePlan(done, done.tasks[id].plan)
      else done
  }

  function HandleCompleted(freeze: bool, db: Db, cluster: string, id: string, command: string, c: Completion): Db {
    if TrimSpace(id) == "" || !Found(db, cluster, id) then db
    else
      var t := db.tasks[id];
      match t.kind
      case PlanCapacity =>
        if t.command != command || t.status == Exactly(Failed) || t.status == Exactly(Cancelled) || !c.world.capacitySaved then db
        else UpdateTask(freeze, db, id, Update(Exactly(Succeeded), NoError, true, Keep, Keep))
      case Backup => if ForceStoppedTask(t) then db else HandleBackupCompleted(freeze, db, id, command, c)
      case BackupCancel => HandleCancelCompleted(freeze, db, cluster, id, c)
      case AgentUpgrade => UpdateTask(freeze, db, id, CompletedUpdate(Exactly(Running), c, false))
      case VeleroUpgrade => UpdateTask(freeze, db, id, CompletedUpdate(Exactly(Running), c, false))
      case _ => HandleOtherCompleted(freeze, db, id, c)
  }

  /** `markBackupCancelFailed`: a backup whose force stop failed runs on. */
  function ResumeTarget(freeze: bool, db: Db, cluster: string, target: string): Db {
    if !Found(db, cluster, target) || !db.tasks[target].kind.Backup? || db.tasks[target].completed then db
    else if db.tasks[target].status != Exactly(Canceling) then db
    else UpdateTask(freeze, db, target, Update(Exactly(Running), Code("SYNC_FORCE_STOP_FAILED"), false, Keep, Keep))
  }

  function HandleFailed(freeze: bool, db: Db, cluster: string, id: string, command: string, error: ErrorCode): Db {
    if TrimSpace(id) == "" || !Found(db, cluster, id) || (command != "" && command != db.tasks[id].command) then db
    else if db.tasks[id].kind.Backup? && (db.tasks[id].result.Some? || ForceStoppedTask(db.tasks[id])) then db
    else
      var failed := UpdateTask(freeze, db, id, Update(Exactly(Failed), error, true, Keep, Set(None)));
      var t := failed.tasks[id];
      match t.kind
      case RetentionCleanup => WarnTrigger(freeze, failed, t.trigger, Code("RETENTION_CLEANUP_FAILED"))
      case BackupCancel => ResumeTarget(freeze, failed, t.cluster, t.target)
      case _ => failed
  }

  /** `isTerminalTaskStatus`. */
  predicate Terminal(s: Status) {
    s.word.Succeeded? || s.word.Failed? || s.word.Canceled? || s.word.Cancelled?
  }

  predicate Upgrade(k: Kind) {
    k.AgentUpgrade? || k.VeleroUpgrade?
  }

  predicate UpgradeOpen(db: Db, cluster: string, id: string) {
    Found(db, cluster, id) && Upgrade(db.tasks[id].kind) && !Terminal(db.tasks[id].status)
  }

  /** A heartbeat completes the upgrades it verifies. */
  function HandleHeartbeat(freeze: bool, db: Db, cluster: string, verified: seq<string>): Db {
    if verified == [] then db
    else
      var n := |verified| - 1;
      var before := HandleHeartbeat(freeze, db, cluster, verified[..n]);
      if UpgradeOpen(before, cluster, verified[n])
      then UpdateTask(freeze, before, verified[n], Update(Exactly(Succeeded), NoError, true, Keep, Keep)) else before
  }

  /** One message from a cluster's agent. */
  function Handle(freeze: bool, db: Db, cluster: string, m: Message): Db {
    match m
    case TaskAccepted(id, command) => HandleAccepted(freeze, db, cluster, id, command)
    case TaskProgress(_, _, _, _, _, _) => HandleProgress(freeze, db, cluster, m)
    case VeleroEvent(_, _, _, _, _, _, _) => HandleVeleroEvent(freeze, db, cluster, m)
    case Inventory(backups) => HandleInventory(freeze, db, cluster, backups)
    case TaskCompleted(id, command, c) => HandleCompleted(freeze, db, cluster, id, command, c)
    case TaskFailed(id, command, error) => HandleFailed(freeze, db, cluster, id, command, error)
    case Heartbeat(verified) => HandleHeartbeat(freeze, db, cluster, verified)
  }

  datatype Delivery = Delivery(cluster: string, message: Message)

  /** A run: messages of any agents, in any order. */
  function Run(freeze: bool, db: Db, ds: seq<Delivery>): Db {
    if ds == [] then db
    else Handle(freeze, Run(freeze, db, ds[..|ds| - 1]), ds[|ds| - 1].cluster, ds[|ds| - 1].message)
  }
}
