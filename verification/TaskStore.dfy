/** Persisted tasks, published restore points and quota reservations, and the store operations the
    message handlers use. */
module TaskStore {

  datatype Option<T> = None | Some(value: T)

  // ---------------------------------------------------------------- records

  /** A status word without regard to case. */
  datatype Word = Queued | Dispatched | Accepted | Running | Syncing | Finalizing | Canceling
    | Succeeded | Failed | Canceled | Cancelled | Blank | Other(text: string)

  /** A status as stored: `exact` says that it is spelled in lower case, as the platform spells it.
      Agents send status strings of their own, which are stored as they come. */
  datatype Status = Status(word: Word, exact: bool)

  function Exactly(w: Word): Status {
    Status(w, true)
  }

  /** `isActiveTaskStatus`. */
  predicate Active(s: Status) {
    s.word.Queued? || s.word.Dispatched? || s.word.Accepted? || s.word.Running? || s.word.Syncing? || s.word.Finalizing? || s.word.Canceling?
  }

  datatype ErrorCode = NoError | ForceStopped | Code(text: string)

  datatype Kind = Backup | BackupCancel | PlanCapacity | AgentUpgrade | VeleroUpgrade | Unregister
    | StorageSync | ScheduleSync | RetentionCleanup | ProtectionCleanup | Restore | Drill | Takeover | OtherKind(text: string)

  /** A running size sample. An instant of zero is Go's zero time, a sequence of zero is unset. */
  datatype Sample = Sample(observedAt: int, sequence: int)

  datatype Metrics = Metrics(schemaVersion: int, logicalKnown: bool, logicalBytes: int, newDataKnown: bool, newDataBytes: int)

  /** `CompleteBackupMetrics`. */
  predicate CompleteMetrics(m: Option<Metrics>) {
    m.Some? && m.value.schemaVersion == 2 && m.value.logicalKnown && m.value.logicalBytes > 0 && m.value.newDataKnown && m.value.newDataBytes >= 0
  }

  /** The result an accepted backup completion records under `backupResult`. */
  datatype BackupResult = BackupResult(name: string, metrics: Metrics)

  /** A task row with the payload keys the protocol reads. */
  datatype Task = Task(
    cluster: string, plan: string, kind: Kind, status: Status, error: ErrorCode, command: string, completed: bool,
    veleroName: string, target: string, trigger: string, result: Option<BackupResult>, sample: Option<Sample>, hasPoint: bool)

  datatype Reservation = Reserved | DataReady | Deleting | Published | Released

  /** Restore points are unique by source cluster and Velero backup name; each names its backup task. */
  datatype Db = Db(tasks: map<string, Task>, points: map<(string, string), string>, reservations: map<string, Reservation>)

  /** `findTaskByID`: the task of that id on that cluster. */
  predicate Found(db: Db, cluster: string, id: string) {
    id != "" && id in db.tasks && db.tasks[id].cluster == cluster
  }

  // ---------------------------------------------------------------- updating a task

  datatype Edit<T> = Keep | Set(value: T)

  datatype Update = Update(status: Status, error: ErrorCode, markDone: bool, veleroName: Edit<string>, sample: Edit<Option<Sample>>)

  const NO_STATUS := Status(Blank, true)

  predicate Publishing(db: Db, id: string) {
    id in db.reservations && (db.reservations[id].DataReady? || db.reservations[id].Deleting? || db.reservations[id].Published?)
  }

  /** The row update of UpdateTaskStatus. A task whose backup is being published is not finished by
      anything but success. `freeze` is the store's rule that a completed row keeps its status and
      error; it is a parameter so that what the handlers guarantee by themselves can be stated. */
  function UpdateRow(freeze: bool, t: Task, publishing: bool, u: Update): (r: Task)
    ensures r.kind == t.kind && r.cluster == t.cluster && r.plan == t.plan && r.result == t.result
    ensures t.completed ==> r.completed
    ensures freeze && t.completed ==> r.status == t.status
  {
    var deferred := u.markDone && u.status != Exactly(Succeeded) && publishing && !t.completed;
    var status := if deferred then Exactly(Finalizing) else u.status;
    t.(
    status := if (freeze && t.completed) || status.word.Blank? then t.status else status,
    error := if freeze && t.completed then t.error else u.error,
    completed := t.completed || (u.markDone && !deferred),
    veleroName := if u.veleroName.Set? then u.veleroName.value else t.veleroName,
    sample := if u.sample.Set? then u.sample.value else t.sample)
  }

  predicate Dead(s: Status) {
    s == Exactly(Failed) || s == Exactly(Canceled) || s == Exactly(Cancelled)
  }

  /** UpdateTaskStatus: the row, and the release of the reservation of a task that died. */
  function UpdateTask(freeze: bool, db: Db, id: string, u: Update): (r: Db)
    ensures r.points == db.points && r.tasks.Keys == db.tasks.Keys
    ensures forall k :: k in db.tasks && k != id ==> r.tasks[k] == db.tasks[k]
    ensures id in db.tasks ==> r.tasks[id] == UpdateRow(freeze, db.tasks[id], Publishing(db, id), u)
  {
    if id !in db.tasks then db
    else
      var t := UpdateRow(freeze, db.tasks[id], Publishing(db, id), u);
      var released := id in db.reservations && db.reservations[id].Reserved? && Dead(t.status) && (u.markDone || Dead(u.status));
      db.(tasks := db.tasks[id := t], reservations := if released then db.reservations[id := Released] else db.reservations)
  }

  /** Deleting a plan's records takes its tasks and restore points along. */
  function RemovePlan(db: Db, plan: string): (r: Db)
    ensures forall k :: k in r.tasks <==> k in db.tasks && db.tasks[k].plan != plan
    ensures forall k :: k in r.tasks ==> r.tasks[k] == db.tasks[k]
    ensures forall k :: k in r.points <==> k in db.points && !(db.points[k] in db.tasks && db.tasks[db.points[k]].plan == plan)
    ensures forall k :: k in r.points ==> r.points[k] == db.points[k]
    ensures r.reservations == db.reservations
  {
    db.(tasks := map k | k in db.tasks && db.tasks[k].plan != plan :: db.tasks[k],
    points := map k | k in db.points && !(db.points[k] in db.tasks && db.tasks[db.points[k]].plan == plan) :: db.points[k])
  }

  // ---------------------------------------------------------------- publishing a backup result

  /** What the plan's retention policy answers when a backup without a reservation asks for a slot. */
  datatype Quota = Unlimited | Slot | Full

  /** What the rest of the store decides during a publication: whether the transaction fails, the quota,
      and whether the point to be replaced is still there. */
  datatype PublishWorld = PublishWorld(fails: bool, quota: Quota, replacementPending: bool)

  datatype PublishOutcome = Refused | Pending | Done

  predicate PublishConflict(db: Db, id: string, name: string)
    requires id in db.tasks
  {
    (db.tasks[id].cluster, name) in db.points && db.points[(db.tasks[id].cluster, name)] != id
  }

  /** The task may not receive a result, or already holds a different one. */
  predicate ResultRefused(t: Task, name: string, metrics: Metrics) {
    || !t.kind.Backup? || Dead(t.status) || t.status == Exactly(Canceling)
    || (t.result.Some? && t.result.value != BackupResult(name, metrics))
  }

  /** PublishBackupResult: one transaction that records the result and, unless an old point must be
      deleted first, inserts the point and completes the task. */
  function Publish(db: Db, id: string, name: string, metrics: Metrics, w: PublishWorld): (PublishOutcome, Db)
    requires id in db.tasks
  {
    var t := db.tasks[id];
    if w.fails || PublishConflict(db, id, name) || ResultRefused(t, name, metrics) then (Refused, db)
    else if t.result.Some? && t.status == Exactly(Succeeded) && t.hasPoint then (Done, db)
    else
      var accepted := if t.result.Some? then t else
        t.(result := Some(BackupResult(name, metrics)), status := if t.completed then t.status else Exactly(Finalizing),
           veleroName := name, sample := None);
      var slots := if id !in db.reservations && w.quota.Slot? then db.reservations[id := Reserved] else db.reservations;
      if (id !in slots && w.quota.Full?) || (id in slots && slots[id].Released?) then (Refused, db)
      else if id in slots && w.replacementPending && !slots[id].Published? then
        (Pending, db.(tasks := db.tasks[id := accepted],
                      reservations := slots[id := if slots[id].Reserved? then DataReady else slots[id]]))
      else
        (Done, Db(db.tasks[id := accepted.(status := Exactly(Succeeded), error := NoError, completed := true, hasPoint := true)],
                  db.points[(t.cluster, name) := id],
                  if id in slots then slots[id := Published] else slots))
  }
}
