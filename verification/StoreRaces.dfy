/** Handlers of two connections overlap: each looks a task up and writes later, when what it saw may no longer
    hold. Here a run is any sequence of single store operations with any arguments, which covers every
    interleaving of handlers and of background workers, however stale their reads. What is proved for such
    runs rests on the store's own rules: a completed row is frozen, and a reservation whose data is ready is
    finished by nothing but success. */
module StoreRaces {
  import opened Text
  import opened TaskStore
  import opened AgentMessages
  import opened AgentRuns

  datatype StoreOp =
    | DoUpdate(id: string, u: Update)
    | DoPublish(id: string, name: string, metrics: Metrics, w: PublishWorld)
    | DoRemovePlan(plan: string)

  function Apply(db: Db, op: StoreOp): Db {
    match op
    case DoUpdate(id, u) => UpdateTask(true, db, id, u)
    case DoPublish(id, name, metrics, w) => if id in db.tasks then Publish(db, id, name, metrics, w).1 else db
    case DoRemovePlan(plan) => RemovePlan(db, plan)
  }

  function ApplyAll(db: Db, ops: seq<StoreOp>): Db {
    if ops == [] then db else Apply(ApplyAll(db, ops[..|ops| - 1]), ops[|ops| - 1])
  }

  lemma ApplyOne(db: Db, op: StoreOp)
    ensures ApplyAll(db, [op]) == Apply(db, op)
  {
    hide Apply;
    assert [op][..0] == [];
    assert ApplyAll(db, []) == db;
  }

  lemma ApplyTwo(db: Db, a: StoreOp, b: StoreOp)
    ensures ApplyAll(db, [a, b]) == Apply(Apply(db, a), b)
  {
    hide Apply;
    assert [a, b][..1] == [a];
    ApplyOne(db, a);
  }

  lemma {:induction false} ApplyAppend(db: Db, a: seq<StoreOp>, b: seq<StoreOp>)
    ensures ApplyAll(db, a + b) == ApplyAll(ApplyAll(db, a), b)
    decreases |b|
  {
    hide Apply;
    if b == [] {
      assert a + b == a;
    } else {
      assert (a + b)[..|a + b| - 1] == a + b[..|b| - 1];
      ApplyAppend(db, a, b[..|b| - 1]);
    }
  }

  // ---------------------------------------------------------------- the first stamp wins

  lemma ApplyStopped(db: Db, op: StoreOp, id: string)
    requires StoppedForGood(db, id)
    ensures StoppedForGood(Apply(db, op), id) && NoNewPoint(db, Apply(db, op), id)
  {
  }

  lemma ApplyRecorded(db: Db, op: StoreOp, id: string)
    requires Recorded(db, id)
    ensures Recorded(Apply(db, op), id)
  {
  }

  lemma ApplyNewPoint(db: Db, op: StoreOp, k: (string, string))
    requires k in Apply(db, op).points && !(k in db.points && db.points[k] == Apply(db, op).points[k])
    ensures Recorded(Apply(db, op), Apply(db, op).points[k])
  {
  }

  lemma ApplyPointsFinal(db: Db, op: StoreOp)
    requires PointsAreFinal(db)
    ensures PointsAreFinal(Apply(db, op))
  {
    hide Apply, Recorded;
    var r := Apply(db, op);
    forall k | k in r.points ensures Recorded(r, r.points[k]) {
      if k in db.points && db.points[k] == r.points[k] {
        ApplyRecorded(db, op, r.points[k]);
      } else {
        ApplyNewPoint(db, op, k);
      }
    }
  }

  lemma {:induction false} AllStopped(db: Db, ops: seq<StoreOp>, id: string)
    requires StoppedForGood(db, id)
    ensures StoppedForGood(ApplyAll(db, ops), id) && NoNewPoint(db, ApplyAll(db, ops), id)
  {
    hide Apply;
    if ops != [] {
      AllStopped(db, ops[..|ops| - 1], id);
      ApplyStopped(ApplyAll(db, ops[..|ops| - 1]), ops[|ops| - 1], id);
    }
  }

  lemma {:induction false} AllRecorded(db: Db, ops: seq<StoreOp>, id: string)
    requires Recorded(db, id)
    ensures Recorded(ApplyAll(db, ops), id)
  {
    hide Apply, Recorded;
    if ops != [] {
      AllRecorded(db, ops[..|ops| - 1], id);
      ApplyRecorded(ApplyAll(db, ops[..|ops| - 1]), ops[|ops| - 1], id);
    }
  }

  lemma {:induction false} AllPointsFinal(db: Db, ops: seq<StoreOp>)
    requires PointsAreFinal(db)
    ensures PointsAreFinal(ApplyAll(db, ops))
  {
    hide Apply, PointsAreFinal;
    if ops != [] {
      AllPointsFinal(db, ops[..|ops| - 1]);
      ApplyPointsFinal(ApplyAll(db, ops[..|ops| - 1]), ops[|ops| - 1]);
    }
  }

  /** In every interleaving of the store operations of any number of handlers, with reads as stale as can be:
      a backup stamped as canceled stays so and never has a restore point, and one that has a restore point
      has succeeded for good. */
  lemma FirstStampWinsInterleaved(db: Db, before: seq<StoreOp>, after: seq<StoreOp>, id: string)
    requires PointsAreFinal(db)
    ensures var mid, end := ApplyAll(db, before), ApplyAll(db, before + after);
            && (id in mid.tasks && StoppedForGood(mid, id) ==> StoppedForGood(end, id) && forall k :: k in end.points ==> end.points[k] != id)
            && ((exists k :: k in mid.points && mid.points[k] == id) ==> Recorded(end, id))
  {
    hide Apply, ApplyAll;
    var mid := ApplyAll(db, before);
    ApplyAppend(db, before, after);
    AllPointsFinal(db, before);
    if id in mid.tasks && StoppedForGood(mid, id) {
      AllStopped(mid, after, id);
    }
    if k :| k in mid.points && mid.points[k] == id {
      AllRecorded(mid, after, id);
    }
  }

  /** What a completed force stop writes to its backup. */
  function StopWrite(target: string, name: string): StoreOp {
    DoUpdate(target, Update(Exactly(Canceled), ForceStopped, true, Set(name), Keep))
  }

  /** A completion and a force stop both found the backup open. Whichever writes first decides, whatever other
      operations come between: the completion's write makes the restore point and the stop then changes
      nothing about it, or the stop's write is final and the completion publishes nothing. */
  lemma WriteOrderDecides(db: Db, id: string, publish: StoreOp, stopName: string, others: seq<StoreOp>)
    requires id in db.tasks && db.tasks[id].kind.Backup? && !db.tasks[id].completed && !Publishing(db, id)
    requires publish.DoPublish? && publish.id == id
    requires (forall k :: k in db.points ==> db.points[k] != id)
    ensures var w := publish;
            Publish(db, id, w.name, w.metrics, w.w).0.Done? && !db.tasks[id].hasPoint ==>
              && (db.tasks[id].cluster, w.name) in Apply(db, publish).points && Apply(db, publish).points[(db.tasks[id].cluster, w.name)] == id
              && Recorded(ApplyAll(Apply(db, publish), others + [StopWrite(id, stopName)]), id)
    ensures var end := ApplyAll(Apply(db, StopWrite(id, stopName)), others + [publish]);
            StoppedForGood(end, id) && forall k :: k in end.points ==> end.points[k] != id
  {
    hide Apply, ApplyAll, Publish;
    var stopped := Apply(db, StopWrite(id, stopName));
    StopStamps(db, id, stopName);
    AllStopped(stopped, others + [publish], id);
    if Publish(db, id, publish.name, publish.metrics, publish.w).0.Done? && !db.tasks[id].hasPoint {
      PublishStamps(db, publish);
      AllRecorded(Apply(db, publish), others + [StopWrite(id, stopName)], id);
    }
  }

  lemma StopStamps(db: Db, id: string, name: string)
    requires id in db.tasks && db.tasks[id].kind.Backup? && !db.tasks[id].completed && !Publishing(db, id)
    ensures StoppedForGood(Apply(db, StopWrite(id, name)), id) && Apply(db, StopWrite(id, name)).points == db.points
  {
  }

  lemma PublishStamps(db: Db, op: StoreOp)
    requires op.DoPublish? && op.id in db.tasks && !db.tasks[op.id].hasPoint && Publish(db, op.id, op.name, op.metrics, op.w).0.Done?
    ensures Recorded(Apply(db, op), op.id)
    ensures var key := (db.tasks[op.id].cluster, op.name); key in Apply(db, op).points && Apply(db, op).points[key] == op.id
  {
  }

  // ---------------------------------------------------------------- a result with a stamp means success

  /** An operation the handlers make: what stamps a task names how it ended. */
  predicate Proper(op: StoreOp) {
    op.DoUpdate? && op.u.markDone ==> op.u.status == Exactly(Succeeded) || op.u.status == Exactly(Failed) || op.u.status == Exactly(Canceled)
  }

  /** A stamped backup succeeded, failed or was canceled; with a result it succeeded; and a result without a
      stamp is one being published. */
  ghost predicate BackupSound(db: Db, id: string) {
    id in db.tasks && db.tasks[id].kind.Backup? ==>
      && (db.tasks[id].completed ==> Dead(db.tasks[id].status) || db.tasks[id].status == Exactly(Succeeded))
      && (db.tasks[id].completed && db.tasks[id].result.Some? ==> db.tasks[id].status == Exactly(Succeeded))
      && (!db.tasks[id].completed && db.tasks[id].result.Some? ==> Publishing(db, id))
  }

  lemma ApplySound(db: Db, op: StoreOp, id: string)
    requires BackupSound(db, id) && Proper(op)
    ensures BackupSound(Apply(db, op), id)
  {
    match op
    case DoUpdate(_, _) => hide Publish, RemovePlan;
    case DoPublish(_, _, _, _) => hide UpdateTask, RemovePlan;
    case DoRemovePlan(_) => hide UpdateTask, Publish;
  }

  lemma {:induction false} AllSound(db: Db, ops: seq<StoreOp>, id: string)
    requires BackupSound(db, id) && forall op <- ops :: Proper(op)
    ensures BackupSound(ApplyAll(db, ops), id)
  {
    hide Apply, BackupSound;
    if ops != [] {
      AllSound(db, ops[..|ops| - 1], id);
      ApplySound(ApplyAll(db, ops[..|ops| - 1]), ops[|ops| - 1], id);
    }
  }

  /** In every interleaving of proper operations a backup with a result and a stamp has succeeded, and stays so. */
  lemma ResultMeansSuccess(db: Db, before: seq<StoreOp>, after: seq<StoreOp>, id: string)
    requires BackupSound(db, id) && forall op <- before :: Proper(op)
    ensures var mid := ApplyAll(db, before);
            id in mid.tasks && mid.tasks[id].kind.Backup? && mid.tasks[id].completed && mid.tasks[id].result.Some? ==>
              Recorded(mid, id) && Recorded(ApplyAll(mid, after), id)
  {
    hide Apply, ApplyAll;
    AllSound(db, before, id);
    var mid := ApplyAll(db, before);
    if id in mid.tasks && mid.tasks[id].kind.Backup? && mid.tasks[id].completed && mid.tasks[id].result.Some? {
      AllRecorded(mid, after, id);
    }
  }

  // ---------------------------------------------------------------- handlers are such operations

  ghost predicate MadeOf(db: Db, after: Db, ops: seq<StoreOp>) {
    ApplyAll(db, ops) == after && forall op <- ops :: Proper(op)
  }

  lemma MadeOfNothing(db: Db)
    ensures MadeOf(db, db, [])
  {
  }

  lemma MadeOfUpdate(db: Db, id: string, u: Update)
    requires Proper(DoUpdate(id, u))
    ensures MadeOf(db, UpdateTask(true, db, id, u), [DoUpdate(id, u)])
  {
    hide ApplyAll;
    ApplyOne(db, DoUpdate(id, u));
  }

  lemma MadeOfBoth(db: Db, mid: Db, end: Db, a: seq<StoreOp>, b: seq<StoreOp>)
    requires MadeOf(db, mid, a) && MadeOf(mid, end, b)
    ensures MadeOf(db, end, a + b)
  {
    hide ApplyAll, Proper;
    ApplyAppend(db, a, b);
  }

  lemma {:induction false} InventoryOps(db: Db, cluster: string, backups: seq<ListedBackup>) returns (ops: seq<StoreOp>)
    ensures MadeOf(db, HandleInventory(true, db, cluster, backups), ops)
  {
    hide UpdateTask, MadeOf, ListedTaken;
    ops := [];
    MadeOfNothing(db);
    if backups != [] {
      var n := |backups| - 1;
      ops := InventoryOps(db, cluster, backups[..n]);
      var before := HandleInventory(true, db, cluster, backups[..n]);
      if ListedTaken(before, cluster, backups[n]) {
        var u := Update(NO_STATUS, NoError, false, Keep, Keep);
        MadeOfUpdate(before, backups[n].taskLabel, u);
        MadeOfBoth(db, before, UpdateTask(true, before, backups[n].taskLabel, u), ops, [DoUpdate(backups[n].taskLabel, u)]);
        ops := ops + [DoUpdate(backups[n].taskLabel, u)];
      }
    }
  }

  lemma {:induction false} HeartbeatOps(db: Db, cluster: string, verified: seq<string>) returns (ops: seq<StoreOp>)
    ensures MadeOf(db, HandleHeartbeat(true, db, cluster, verified), ops)
  {
    hide UpdateTask, MadeOf, UpgradeOpen;
    ops := [];
    MadeOfNothing(db);
    if verified != [] {
      var n := |verified| - 1;
      ops := HeartbeatOps(db, cluster, verified[..n]);
      var before := HandleHeartbeat(true, db, cluster, verified[..n]);
      if UpgradeOpen(before, cluster, verified[n]) {
        var u := Update(Exactly(Succeeded), NoError, true, Keep, Keep);
        MadeOfUpdate(before, verified[n], u);
        MadeOfBoth(db, before, UpdateTask(true, before, verified[n], u), ops, [DoUpdate(verified[n], u)]);
        ops := ops + [DoUpdate(verified[n], u)];
      }
    }
  }

  /** One update, or none. */
  lemma AtMostOne(db: Db, after: Db, id: string, u: Update) returns (ops: seq<StoreOp>)
    requires Proper(DoUpdate(id, u)) && (after == db || after == UpdateTask(true, db, id, u))
    ensures MadeOf(db, after, ops)
  {
    hide UpdateTask, MadeOf, Proper;
    MadeOfNothing(db);
    MadeOfUpdate(db, id, u);
    ops := if after == db then [] else [DoUpdate(id, u)];
  }

  /** A handler's first update, and what comes after it. */
  lemma UpdateThen(db: Db, id: string, u: Update, after: Db, more: seq<StoreOp>)
    requires Proper(DoUpdate(id, u)) && MadeOf(UpdateTask(true, db, id, u), after, more)
    ensures MadeOf(db, after, [DoUpdate(id, u)] + more)
  {
    hide UpdateTask, MadeOf, Proper;
    MadeOfUpdate(db, id, u);
    MadeOfBoth(db, UpdateTask(true, db, id, u), after, [DoUpdate(id, u)], more);
  }

  lemma PublishThen(db: Db, op: StoreOp, after: Db, more: seq<StoreOp>)
    requires op.DoPublish? && MadeOf(Apply(db, op), after, more)
    ensures MadeOf(db, after, [op] + more)
  {
    hide Apply, ApplyAll;
    ApplyOne(db, op);
    ApplyAppend(db, [op], more);
  }

  lemma BackupOps(db: Db, id: string, command: string, c: Completion) returns (ops: seq<StoreOp>)
    requires id in db.tasks
    ensures MadeOf(db, HandleBackupCompleted(true, db, id, command, c), ops)
  {
    hide UpdateTask, MadeOf, Publish, CompletionMetrics;
    var r := HandleBackupCompleted(true, db, id, command, c);
    var u := Update(Exactly(Finalizing), Code("BACKUP_RESULT_INCOMPLETE"), false, Keep, Keep);
    if r == db || r == UpdateTask(true, db, id, u) {
      ops := AtMostOne(db, r, id, u);
    } else {
      var op := DoPublish(id, c.veleroName, CompletionMetrics(c).value, c.world.publish);
      var mid := Apply(db, op);
      var more := AtMostOne(mid, r, id, Update(Exactly(Finalizing), NoError, false, Keep, Keep));
      PublishThen(db, op, r, more);
      ops := [op] + more;
    }
  }

  lemma CancelOps(db: Db, cluster: string, id: string, c: Completion) returns (ops: seq<StoreOp>)
    requires id in db.tasks
    ensures MadeOf(db, HandleCancelCompleted(true, db, cluster, id, c), ops)
  {
    hide UpdateTask, MadeOf;
    var u := CompletedUpdate(Exactly(Succeeded), c, true);
    var mid := UpdateTask(true, db, id, u);
    var cancel := mid.tasks[id];
    var target := if cancel.target != "" then cancel.target else c.targetTaskId;
    var name := if cancel.veleroName != "" then cancel.veleroName else c.backupName;
    var more := AtMostOne(mid, StopTarget(true, mid, cluster, target, name), target, Update(Exactly(Canceled), ForceStopped, true, Set(name), Keep));
    UpdateThen(db, id, u, StopTarget(true, mid, cluster, target, name), more);
    ops := [DoUpdate(id, u)] + more;
  }

  lemma RemoveOps(db: Db, plan: string) returns (ops: seq<StoreOp>)
    ensures MadeOf(db, RemovePlan(db, plan), ops)
  {
    hide RemovePlan, ApplyAll;
    ops := [DoRemovePlan(plan)];
    ApplyOne(db, DoRemovePlan(plan));
  }

  lemma OtherOps(db: Db, id: string, c: Completion) returns (ops: seq<StoreOp>)
    requires id in db.tasks
    ensures MadeOf(db, HandleOtherCompleted(true, db, id, c), ops)
  {
    hide UpdateTask, MadeOf, RemovePlan;
    var r := HandleOtherCompleted(true, db, id, c);
    var u := CompletedUpdate(Exactly(Finalizing), c, false);
    var finalizing := UpdateTask(true, db, id, u);
    var failed := Update(Exactly(Failed), Code("PLATFORM_CLEANUP_FAILED"), true, Keep, Keep);
    var more;
    if db.tasks[id].kind.Unregister? && !c.world.unregisterFinished {
      more := AtMostOne(finalizing, r, id, failed);
    } else {
      var s := CompletedUpdate(Exactly(Succeeded), c, true);
      var done := UpdateTask(true, finalizing, id, s);
      var last;
      if db.tasks[id].kind.ProtectionCleanup? && c.world.planRemoved {
        last := RemoveOps(done, done.tasks[id].plan);
      } else {
        last := AtMostOne(done, r, done.tasks[id].trigger, Update(NO_STATUS, NoError, false, Keep, Keep));
      }
      UpdateThen(finalizing, id, s, r, last);
      more := [DoUpdate(id, s)] + last;
    }
    UpdateThen(db, id, u, r, more);
    ops := [DoUpdate(id, u)] + more;
  }

  lemma CompletedOps(db: Db, cluster: string, id: string, command: string, c: Completion) returns (ops: seq<StoreOp>)
    ensures MadeOf(db, HandleCompleted(true, db, cluster, id, command, c), ops)
  {
    hide TrimSpace, UpdateTask, MadeOf, HandleBackupCompleted, HandleOtherCompleted, HandleCancelCompleted;
    var r := HandleCompleted(true, db, cluster, id, command, c);
    MadeOfNothing(db);
    ops := [];
    if TrimSpace(id) != "" && Found(db, cluster, id) {
      match db.tasks[id].kind
      case PlanCapacity => ops := AtMostOne(db, r, id, Update(Exactly(Succeeded), NoError, true, Keep, Keep));
      case Backup => if !ForceStoppedTask(db.tasks[id]) { ops := BackupOps(db, id, command, c); }
      case BackupCancel => ops := CancelOps(db, cluster, id, c);
      case AgentUpgrade => ops := AtMostOne(db, r, id, CompletedUpdate(Exactly(Running), c, false));
      case VeleroUpgrade => ops := AtMostOne(db, r, id, CompletedUpdate(Exactly(Running), c, false));
      case _ => ops := OtherOps(db, id, c);
    }
  }

  lemma FailedOps(db: Db, cluster: string, id: string, command: string, error: ErrorCode) returns (ops: seq<StoreOp>)
    ensures MadeOf(db, HandleFailed(true, db, cluster, id, command, error), ops)
  {
    hide TrimSpace, UpdateTask, MadeOf;
    var r := HandleFailed(true, db, cluster, id, command, error);
    if r == db {
      MadeOfNothing(db);
      ops := [];
    } else {
      var u := Update(Exactly(Failed), error, true, Keep, Set(None));
      var failed := UpdateTask(true, db, id, u);
      var t := failed.tasks[id];
      var more;
      if t.kind.RetentionCleanup? {
        more := AtMostOne(failed, r, t.trigger, Update(NO_STATUS, Code("RETENTION_CLEANUP_FAILED"), false, Keep, Keep));
      } else {
        more := AtMostOne(failed, r, t.target, Update(Exactly(Running), Code("SYNC_FORCE_STOP_FAILED"), false, Keep, Keep));
      }
      UpdateThen(db, id, u, r, more);
      ops := [DoUpdate(id, u)] + more;
    }
  }

  /** Every message is handled by such operations. */
  lemma HandleOps(db: Db, cluster: string, m: Message) returns (ops: seq<StoreOp>)
    ensures MadeOf(db, Handle(true, db, cluster, m), ops)
  {
    hide TrimSpace, UpdateTask, MadeOf, HandleInventory, HandleHeartbeat, HandleCompleted, HandleFailed, StaleSample;
    var r := Handle(true, db, cluster, m);
    match m
    case TaskAccepted(id, _) => ops := AtMostOne(db, r, id, Update(Exactly(Accepted), NoError, false, Keep, Keep));
    case TaskProgress(id, _, status, sample, readiness, name) =>
      ops := AtMostOne(db, r, id, Update(status, NoError, false, NameEdit(name), SampleEdit(sample, readiness)));
    case VeleroEvent(_, _, taskId, onResource, _, _, _) =>
      ops := AtMostOne(db, r, EventTaskId(taskId, onResource), Update(NO_STATUS, NoError, false, Keep, Keep));
    case Inventory(backups) => ops := InventoryOps(db, cluster, backups);
    case TaskCompleted(id, command, c) => ops := CompletedOps(db, cluster, id, command, c);
    case TaskFailed(id, command, error) => ops := FailedOps(db, cluster, id, command, error);
    case Heartbeat(verified) => ops := HeartbeatOps(db, cluster, verified);
  }

  /** So every run of messages is a run of such operations, and what holds for all of those holds for it. */
  lemma {:induction false} RunOps(db: Db, ds: seq<Delivery>) returns (ops: seq<StoreOp>)
    ensures MadeOf(db, Run(true, db, ds), ops)
  {
    hide Handle, MadeOf;
    ops := [];
    MadeOfNothing(db);
    if ds != [] {
      var n := |ds| - 1;
      ops := RunOps(db, ds[..n]);
      var mid := Run(true, db, ds[..n]);
      var more := HandleOps(mid, ds[n].cluster, ds[n].message);
      MadeOfBoth(db, mid, Handle(true, mid, ds[n].cluster, ds[n].message), ops, more);
      ops := ops + more;
    }
  }

  /** Over every run of messages, a backup with a result and a stamp has succeeded. */
  lemma RunResultMeansSuccess(db: Db, ds: seq<Delivery>, id: string)
    requires BackupSound(db, id)
    ensures BackupSound(Run(true, db, ds), id)
  {
    hide Run, ApplyAll, BackupSound;
    var ops := RunOps(db, ds);
    AllSound(db, ops, id);
  }
}
