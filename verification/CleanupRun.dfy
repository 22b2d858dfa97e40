/** Removing a protection plan: a cleanup run has a task on the source cluster and, if the plan has
    another target cluster, one on the target. Two agents finish them concurrently; each completion
    handler, and a delayed recheck, decides on its own whether the plan's records can go. */
module CleanupRun {

  datatype Mode = Source | Target | Drill | NoMode

  datatype Status = Open | Succeeded | Failed

  /** A protection-cleanup task. */
  datatype Task = Task(plan: string, run: string, mode: Mode, status: Status, completed: bool, createdAt: int)

  /** A plan whose target cluster differs from its source expects a target task in every run. */
  datatype Plan = Plan(id: string, expectTarget: bool)

  predicate InRun(t: Task, plan: Plan, run: string) {
    t.plan == plan.id && t.run == run
  }

  // ---------------------------------------------------------------- is a run complete?

  /** Every task of the run succeeded, with a source task and, when expected, a target task among them. */
  ghost predicate RunComplete(tasks: seq<Task>, plan: Plan, run: string) {
    && (forall t <- tasks :: InRun(t, plan, run) ==> t.status.Succeeded?)
    && (exists t <- tasks :: InRun(t, plan, run) && !t.mode.Target?)
    && (plan.expectTarget ==> exists t <- tasks :: InRun(t, plan, run) && t.mode.Target?)
  }

  /** The index of the newest of the first `n` tasks of the plan in one mode, the first of equals; -1 if
      there is none. The way completion was decided before runs had ids. */
  function Newest(tasks: seq<Task>, plan: Plan, target: bool, n: nat): (i: int)
    requires n <= |tasks|
    ensures -1 <= i < n
    ensures i >= 0 ==> tasks[i].plan == plan.id && tasks[i].mode.Target? == target
    ensures forall k :: 0 <= k < n && tasks[k].plan == plan.id && tasks[k].mode.Target? == target ==>
              i >= 0 && tasks[k].createdAt <= tasks[i].createdAt
  {
    if n == 0 then -1
    else
      var i := Newest(tasks, plan, target, n - 1);
      if tasks[n - 1].plan == plan.id && tasks[n - 1].mode.Target? == target && (i < 0 || tasks[n - 1].createdAt > tasks[i].createdAt) then n - 1 else i
  }

  ghost predicate LegacyComplete(tasks: seq<Task>, plan: Plan) {
    var s, t := Newest(tasks, plan, false, |tasks|), Newest(tasks, plan, true, |tasks|);
    && s >= 0 && tasks[s].status.Succeeded?
    && (plan.expectTarget ==> t >= 0 && tasks[t].status.Succeeded?)
  }

  /** What a listing of the tasks says about the run: decided by its id, or without one the old way. */
  ghost predicate Decides(listed: seq<Task>, plan: Plan, run: string) {
    if run != "" then RunComplete(listed, plan, run) else LegacyComplete(listed, plan)
  }

  /** Some of the first `n` tasks is one of the run in the given mode. */
  ghost predicate SeenInRun(tasks: seq<Task>, plan: Plan, run: string, target: bool, n: nat)
    requires n <= |tasks|
  {
    exists k :: 0 <= k < n && InRun(tasks[k], plan, run) && tasks[k].mode.Target? == target
  }

  /** The scan over the tasks of a run with an id: stops at the first that did not succeed. */
  method ScanRun(tasks: seq<Task>, plan: Plan, run: string) returns (complete: bool)
    ensures complete == RunComplete(tasks, plan, run)
  {
    var sourceDone, targetDone := false, !plan.expectTarget;
    for i := 0 to |tasks|
      invariant forall k :: 0 <= k < i && InRun(tasks[k], plan, run) ==> tasks[k].status.Succeeded?
      invariant sourceDone <==> SeenInRun(tasks, plan, run, false, i)
      invariant targetDone <==> !plan.expectTarget || SeenInRun(tasks, plan, run, true, i)
    {
      var item := tasks[i];
      if item.plan != plan.id || item.run != run {
        continue;
      }
      if !item.status.Succeeded? {
        assert item in tasks && InRun(item, plan, run);
        return false;
      }
      if item.mode.Target? {
        targetDone := true;
      } else {
        sourceDone := true;
      }
    }
    assert SeenInRun(tasks, plan, run, false, |tasks|) <==> exists t <- tasks :: InRun(t, plan, run) && !t.mode.Target?;
    assert SeenInRun(tasks, plan, run, true, |tasks|) <==> exists t <- tasks :: InRun(t, plan, run) && t.mode.Target?;
    complete := sourceDone && targetDone;
  }

  /** `protectionCleanupTasksComplete`: by run id, or without one by the newest task of each mode. */
  method TasksComplete(tasks: seq<Task>, plan: Plan, run: string) returns (complete: bool)
    ensures complete == Decides(tasks, plan, run)
  {
    hide RunComplete;
    if run != "" {
      complete := ScanRun(tasks, plan, run);
      return;
    }
    var latestSource, latestTarget := -1, -1;
    for i := 0 to |tasks|
      invariant latestSource == Newest(tasks, plan, false, i)
      invariant latestTarget == Newest(tasks, plan, true, i)
    {
      var item := tasks[i];
      if item.plan != plan.id {
        continue;
      }
      if item.mode.Target? {
        if latestTarget < 0 || item.createdAt > tasks[latestTarget].createdAt {
          latestTarget := i;
        }
      } else if latestSource < 0 || item.createdAt > tasks[latestSource].createdAt {
        latestSource := i;
      }
    }
    var sourceDone := latestSource >= 0 && tasks[latestSource].status.Succeeded?;
    var targetDone := !plan.expectTarget || (latestTarget >= 0 && tasks[latestTarget].status.Succeeded?);
    complete := sourceDone && targetDone;
  }

  // ---------------------------------------------------------------- the concurrent system

  /** A completion handler, or the recheck it scheduled, between two of its store operations. */
  datatype Pc = AtPlan | AtList | AtCleanup | Delayed | Finished

  datatype Handler = Handler(run: string, pc: Pc, recheck: bool)

  /** How far the creation of a run's tasks has come. */
  datatype Creation = NeedSource | NeedTarget | Created | Abandoned

  datatype State = State(
    plan: Plan, alive: bool, tasks: map<string, Task>,
    creating: map<string, Creation>, handlers: map<nat, Handler>, storeErred: bool)

  /** Tasks as the store lists them. */
  ghost predicate Complete(s: State, run: string) {
    && (forall id :: id in s.tasks && InRun(s.tasks[id], s.plan, run) ==> s.tasks[id].status.Succeeded?)
    && (exists id :: id in s.tasks && InRun(s.tasks[id], s.plan, run) && !s.tasks[id].mode.Target?)
    && (s.plan.expectTarget ==> exists id :: id in s.tasks && InRun(s.tasks[id], s.plan, run) && s.tasks[id].mode.Target?)
  }

  /** A listing holds the rows of the task table, in any order. */
  ghost predicate Lists(s: State, listed: seq<Task>) {
    forall t :: t in listed <==> exists id :: id in s.tasks && s.tasks[id] == t
  }

  /** Every listing of the task table decides the completeness of a run with an id the same way. */
  lemma ListingDecides(s: State, listed: seq<Task>, run: string)
    requires Lists(s, listed) && run != ""
    ensures Decides(listed, s.plan, run) <==> Complete(s, run)
  {
    if Complete(s, run) {
      var id :| id in s.tasks && InRun(s.tasks[id], s.plan, run) && !s.tasks[id].mode.Target?;
      assert s.tasks[id] in listed;
      if s.plan.expectTarget {
        var id' :| id' in s.tasks && InRun(s.tasks[id'], s.plan, run) && s.tasks[id'].mode.Target?;
        assert s.tasks[id'] in listed;
      }
    }
    if RunComplete(listed, s.plan, run) {
      forall id | id in s.tasks && InRun(s.tasks[id], s.plan, run) ensures s.tasks[id].status.Succeeded? {
        assert s.tasks[id] in listed;
      }
    }
  }

  datatype Action =
    | BeginRun(run: string)
    | CreateTask(run: string, id: string, at: int)
    | CreationFails(run: string)
    | Write(id: string)
    | Fail(id: string)
    | Succeed(id: string, handler: nat)
    | LoadPlan(handler: nat)
    | ListTasks(handler: nat, listed: seq<Task>)
    | Wake(handler: nat)
    | Remove(handler: nat)
    | StoreError(handler: nat)

  /** A new run gets an id nobody used. */
  ghost predicate FreshRun(s: State, run: string) {
    run != "" && run !in s.creating && (forall id :: id in s.tasks ==> s.tasks[id].run != run)
    && (forall h :: h in s.handlers ==> s.handlers[h].run != run)
  }

  /** The store keeps the status of a completed row. */
  function Stamp(t: Task, status: Status): Task {
    if t.completed then t else t.(status := status, completed := true)
  }

  function Advance(s: State, h: nat, pc: Pc): State
    requires h in s.handlers
  {
    s.(handlers := s.handlers[h := s.handlers[h].(pc := pc)])
  }

  predicate Ended(c: Creation) {
    c.Created? || c.Abandoned?
  }

  /** The next task the run is waiting for, in a row nobody used. */
  function CreateNext(s: State, run: string, id: string, at: int): State {
    if run !in s.creating || Ended(s.creating[run]) || id in s.tasks then s
    else if !s.alive then s.(creating := s.creating[run := Abandoned])
    else
      var mode := if s.creating[run].NeedSource? then Source else Target;
      s.(tasks := s.tasks[id := Task(s.plan.id, run, mode, Open, false, at)],
      creating := s.creating[run := if mode.Source? && s.plan.expectTarget then NeedTarget else Created])
  }

  /** What removing the plan's records leaves of the task table. */
  function OtherPlans(s: State): map<string, Task> {
    map id | id in s.tasks && s.tasks[id].plan != s.plan.id :: s.tasks[id]
  }

  /** One operation of a handler or recheck on the store. */
  ghost function HandlerNext(s: State, a: Action): State {
    match a
    case LoadPlan(h) =>
      if h !in s.handlers || !s.handlers[h].pc.AtPlan? then s
      else Advance(s, h, if s.alive then AtList else Finished)
    case ListTasks(h, listed) =>
      if h !in s.handlers || !s.handlers[h].pc.AtList? || !Lists(s, listed) then s
      else if Decides(listed, s.plan, s.handlers[h].run) then Advance(s, h, AtCleanup)
      else Advance(s, h, if s.handlers[h].recheck then Finished else Delayed)
    case Wake(h) =>
      if h !in s.handlers || !s.handlers[h].pc.Delayed? then s
      else s.(handlers := s.handlers[h := s.handlers[h].(pc := AtPlan, recheck := true)])
    case Remove(h) =>
      if h !in s.handlers || !s.handlers[h].pc.AtCleanup? then s
      else Advance(s, h, Finished).(alive := false, tasks := OtherPlans(s))
    case StoreError(h) =>
      if h !in s.handlers then s else Advance(s, h, Finished).(storeErred := true)
    case _ => s
  }

  /** One atomic step; an action that is not enabled changes nothing. */
  ghost function Next(s: State, a: Action): State {
    match a
    case BeginRun(run) => if s.alive && FreshRun(s, run) then s.(creating := s.creating[run := NeedSource]) else s
    case CreateTask(run, id, at) => CreateNext(s, run, id, at)
    case CreationFails(run) => if run in s.creating && !s.creating[run].Created? then s.(creating := s.creating[run := Abandoned]) else s
    // Dispatch workers and progress messages write statuses that are neither success nor failure.
    case Write(id) =>
      if id in s.tasks && !s.tasks[id].completed then s.(tasks := s.tasks[id := s.tasks[id].(status := Open)]) else s
    case Fail(id) => if id in s.tasks then s.(tasks := s.tasks[id := Stamp(s.tasks[id], Failed)]) else s
    case Succeed(id, h) =>
      if id !in s.tasks || h in s.handlers then s
      else
        var stamped := s.(tasks := s.tasks[id := Stamp(s.tasks[id], Succeeded)]);
        if s.tasks[id].plan != s.plan.id || s.tasks[id].mode.Drill? then stamped
        else stamped.(handlers := s.handlers[h := Handler(s.tasks[id].run, AtPlan, false)])
    case _ => HandlerNext(s, a)
  }

  ghost function Run(s: State, actions: seq<Action>): State {
    if actions == [] then s else Next(Run(s, actions[..|actions| - 1]), actions[|actions| - 1])
  }

  // ---------------------------------------------------------------- the invariant

  predicate Live(h: Handler) {
    h.pc.AtPlan? || h.pc.AtList? || h.pc.AtCleanup?
  }

  /** The tasks of a run still being created are known. */
  ghost predicate RunSound(s: State, run: string)
    requires run in s.creating
  {
    && run != ""
    && (s.creating[run].NeedSource? ==> forall id :: id in s.tasks ==> s.tasks[id].run != run)
    && (s.creating[run].NeedTarget? ==> s.plan.expectTarget && forall id :: id in s.tasks && s.tasks[id].run == run ==> !s.tasks[id].mode.Target?)
  }

  ghost predicate CreationSound(s: State) {
    forall run :: run in s.creating ==> RunSound(s, run)
  }

  ghost predicate SuccessStamped(s: State) {
    forall id :: id in s.tasks && s.tasks[id].status.Succeeded? ==> s.tasks[id].completed
  }

  /** A handler about to remove the records belongs to a run that is complete, if the run has an id. */
  ghost predicate RemovalSound(s: State) {
    s.alive ==> forall h :: h in s.handlers && s.handlers[h].pc.AtCleanup? && s.handlers[h].run != "" ==> Complete(s, s.handlers[h].run)
  }

  /** While a complete run's records are still there, somebody is going to look. */
  ghost predicate SomeoneLooks(s: State, run: string) {
    s.alive && Complete(s, run) && !s.storeErred ==> exists h :: h in s.handlers && s.handlers[h].run == run && Live(s.handlers[h])
  }

  /** The tasks of the run are source and target tasks: a drill's cleanup is not part of it. */
  ghost predicate NoDrill(s: State, run: string) {
    forall id :: id in s.tasks && InRun(s.tasks[id], s.plan, run) ==> !s.tasks[id].mode.Drill?
  }

  ghost predicate Inv(s: State, run: string) {
    CreationSound(s) && SuccessStamped(s) && RemovalSound(s) && run != "" && NoDrill(s, run) && SomeoneLooks(s, run)
  }

  // ---------------------------------------------------------------- what one step does to the tasks

  /** While the plan lives no task disappears, none changes its run, and completed ones do not change. */
  lemma TaskKept(s: State, a: Action, id: string)
    requires id in s.tasks && Next(s, a).alive
    ensures Next(s, a).plan == s.plan && s.alive && id in Next(s, a).tasks
    ensures var t, t' := s.tasks[id], Next(s, a).tasks[id];
            && t'.plan == t.plan && t'.run == t.run && t'.mode == t.mode && (t.completed ==> t' == t)
            && (t'.status.Succeeded? ==> t'.completed || t.status.Succeeded?)
            && (t'.status.Succeeded? && !t.status.Succeeded? ==> a.Succeed? && a.id == id)
  {
    hide FreshRun, CreateNext, HandlerNext;
    match a
    case CreateTask(run, row, at) => CreateKeeps(s, run, row, at);
    case Write(_) =>
    case Fail(_) =>
    case Succeed(_, _) =>
    case _ => HandlerKeeps(s, a);
  }

  /** Handlers touch neither rows nor creations, but the removal takes the plan's rows. */
  lemma HandlerKeeps(s: State, a: Action)
    ensures var s' := HandlerNext(s, a);
            && s'.plan == s.plan && s'.creating == s.creating && (s'.alive ==> s.alive) && (s.storeErred ==> s'.storeErred)
            && ((s'.tasks == s.tasks && s'.alive == s.alive) || (s'.tasks == OtherPlans(s) && !s'.alive))
  {
    hide Lists, Decides, OtherPlans;
  }

  lemma CreateKeeps(s: State, run: string, row: string, at: int)
    ensures var s' := CreateNext(s, run, row, at);
            s'.plan == s.plan && s'.alive == s.alive && forall id :: id in s.tasks ==> id in s'.tasks && s'.tasks[id] == s.tasks[id]
  {
  }

  /** A new task is open, and it is the next one its run was waiting for. */
  lemma TaskNew(s: State, a: Action, id: string)
    requires id in Next(s, a).tasks && id !in s.tasks
    ensures a.CreateTask? && a.run in s.creating && !Ended(s.creating[a.run])
    ensures var t := Next(s, a).tasks[id];
            t.run == a.run && t.status.Open? && t.plan == s.plan.id && t.mode == if s.creating[a.run].NeedSource? then Source else Target
  {
    hide Lists, Decides, FreshRun;
  }

  /** Completeness of a run survives everything but the removal itself. */
  lemma CompleteStable(s: State, a: Action, run: string)
    requires CreationSound(s) && SuccessStamped(s) && run != "" && Complete(s, run) && Next(s, a).alive
    ensures Complete(Next(s, a), run)
  {
    hide Next;
    var s' := Next(s, a);
    var src :| src in s.tasks && InRun(s.tasks[src], s.plan, run) && !s.tasks[src].mode.Target?;
    TaskKept(s, a, src);
    if s.plan.expectTarget {
      var tgt :| tgt in s.tasks && InRun(s.tasks[tgt], s.plan, run) && s.tasks[tgt].mode.Target?;
      TaskKept(s, a, tgt);
    }
    forall id | id in s'.tasks && InRun(s'.tasks[id], s'.plan, run) ensures s'.tasks[id].status.Succeeded? {
      if id in s.tasks {
        TaskKept(s, a, id);
      } else {
        TaskNew(s, a, id);
      }
    }
  }

  /** Only a success of one of its tasks makes an incomplete run complete. */
  lemma CompletedBySuccess(s: State, a: Action, run: string)
    requires SuccessStamped(s) && !Complete(s, run) && Complete(Next(s, a), run) && Next(s, a).alive && s.alive
    ensures a.Succeed? && a.id in s.tasks && InRun(s.tasks[a.id], s.plan, run)
  {
    hide Next;
    var s' := Next(s, a);
    var src :| src in s'.tasks && InRun(s'.tasks[src], s'.plan, run) && !s'.tasks[src].mode.Target?;
    OldTask(s, a, src, run);
    if s.plan.expectTarget {
      var tgt :| tgt in s'.tasks && InRun(s'.tasks[tgt], s'.plan, run) && s'.tasks[tgt].mode.Target?;
      OldTask(s, a, tgt, run);
    }
    var id :| id in s.tasks && InRun(s.tasks[id], s.plan, run) && !s.tasks[id].status.Succeeded?;
    TaskKept(s, a, id);
  }

  lemma OldTask(s: State, a: Action, id: string, run: string)
    requires id in Next(s, a).tasks && Next(s, a).tasks[id].status.Succeeded? && Next(s, a).alive
    ensures id in s.tasks && s.plan == Next(s, a).plan
    ensures var t, t' := s.tasks[id], Next(s, a).tasks[id]; t'.plan == t.plan && t'.run == t.run && t'.mode == t.mode
  {
    hide Next;
    if id !in s.tasks { TaskNew(s, a, id); }
    TaskKept(s, a, id);
  }

  // ---------------------------------------------------------------- what one step keeps

  lemma StepRunSound(s: State, a: Action, run: string)
    requires run in Next(s, a).creating && (run in s.creating ==> RunSound(s, run))
    ensures RunSound(Next(s, a), run)
  {
    hide CreateNext, HandlerNext;
    if a.CreateTask? {
      CreateSound(s, a.run, a.id, a.at, run);
    } else if !a.BeginRun? {
      hide Next, FreshRun;
      CreationKept(s, a);
      forall id | id in Next(s, a).tasks ensures id in s.tasks && Next(s, a).tasks[id].run == s.tasks[id].run && Next(s, a).tasks[id].mode == s.tasks[id].mode {
        RowKept(s, a, id);
      }
    }
  }

  lemma RowKept(s: State, a: Action, id: string)
    requires id in Next(s, a).tasks && !a.CreateTask?
    ensures id in s.tasks && Next(s, a).tasks[id].run == s.tasks[id].run && Next(s, a).tasks[id].mode == s.tasks[id].mode
  {
    hide FreshRun, CreateNext, HandlerNext;
    HandlerKeeps(s, a);
  }

  /** Only beginning a run and creating its tasks move a creation forward; a failure ends it. */
  lemma CreationKept(s: State, a: Action)
    requires !a.CreateTask? && !a.BeginRun?
    ensures Next(s, a).plan == s.plan
    ensures forall run :: run in Next(s, a).creating ==> run in s.creating && (Next(s, a).creating[run].Abandoned? || Next(s, a).creating[run] == s.creating[run])
  {
    hide FreshRun, HandlerNext;
    HandlerKeeps(s, a);
  }

  lemma CreateSound(s: State, other: string, row: string, at: int, run: string)
    requires run in CreateNext(s, other, row, at).creating && (run in s.creating ==> RunSound(s, run))
    ensures RunSound(CreateNext(s, other, row, at), run)
  {
  }

  lemma StepCreation(s: State, a: Action)
    requires CreationSound(s)
    ensures CreationSound(Next(s, a))
  {
    hide Next;
    forall run | run in Next(s, a).creating ensures RunSound(Next(s, a), run) {
      StepRunSound(s, a, run);
    }
  }

  lemma StepStamped(s: State, a: Action)
    requires SuccessStamped(s)
    ensures SuccessStamped(Next(s, a))
  {
    hide Lists, Decides, FreshRun;
  }

  /** A handler comes to the removal only by finding its run complete. */
  lemma ReachesCleanup(s: State, a: Action, h: nat)
    requires h in Next(s, a).handlers && Next(s, a).handlers[h].pc.AtCleanup?
    ensures h in s.handlers && s.handlers[h].run == Next(s, a).handlers[h].run
    ensures s.handlers[h].pc.AtCleanup? || s.handlers[h].run == "" || Complete(s, s.handlers[h].run)
  {
    hide FreshRun, Complete, HandlerNext;
    match a
    case Succeed(_, _) =>
    case _ => if Next(s, a) == HandlerNext(s, a) { HandlerReaches(s, a, h); }
  }

  lemma HandlerReaches(s: State, a: Action, h: nat)
    requires h in HandlerNext(s, a).handlers && HandlerNext(s, a).handlers[h].pc.AtCleanup?
    ensures h in s.handlers && s.handlers[h].run == HandlerNext(s, a).handlers[h].run
    ensures s.handlers[h].pc.AtCleanup? || s.handlers[h].run == "" || Complete(s, s.handlers[h].run)
  {
    hide Lists, Decides, Complete, OtherPlans;
    if a.ListTasks? && a.handler == h && s.handlers[h].run != "" && Lists(s, a.listed) { ListingDecides(s, a.listed, s.handlers[h].run); }
  }

  lemma StepRemoval(s: State, a: Action)
    requires CreationSound(s) && SuccessStamped(s) && RemovalSound(s)
    ensures RemovalSound(Next(s, a))
  {
    hide Next, Complete, CreationSound, SuccessStamped;
    var s' := Next(s, a);
    if s'.alive {
      AliveBefore(s, a);
      forall h | h in s'.handlers && s'.handlers[h].pc.AtCleanup? && s'.handlers[h].run != "" ensures Complete(s', s'.handlers[h].run) {
        ReachesCleanup(s, a, h);
        CompleteStable(s, a, s.handlers[h].run);
      }
    }
  }

  lemma AliveBefore(s: State, a: Action)
    requires Next(s, a).alive
    ensures s.alive && Next(s, a).plan == s.plan
  {
    hide Lists, Decides, FreshRun;
  }

  lemma StepNoDrill(s: State, a: Action, run: string)
    requires NoDrill(s, run)
    ensures NoDrill(Next(s, a), run)
  {
    hide Lists, Decides, FreshRun;
  }

  /** A handler that still looks either goes on looking, or it removed the plan, or its run was incomplete. */
  lemma GoesOnLooking(s: State, a: Action, h: nat)
    requires h in s.handlers && Live(s.handlers[h]) && s.alive && Next(s, a).alive && !Next(s, a).storeErred
    requires s.handlers[h].run != "" && Complete(s, s.handlers[h].run)
    ensures h in Next(s, a).handlers && Live(Next(s, a).handlers[h]) && Next(s, a).handlers[h].run == s.handlers[h].run
  {
    hide Lists, Decides, FreshRun, Complete;
    if a.ListTasks? && a.handler == h && Lists(s, a.listed) { ListingDecides(s, a.listed, s.handlers[h].run); }
  }

  lemma StepSomeoneLooks(s: State, a: Action, run: string)
    requires Inv(s, run)
    ensures SomeoneLooks(Next(s, a), run)
  {
    hide Next, Complete, CreationSound, SuccessStamped, RemovalSound, NoDrill;
    var s' := Next(s, a);
    if s'.alive && Complete(s', run) && !s'.storeErred {
      AliveBefore(s, a);
      ErrorsStay(s, a);
      if Complete(s, run) {
        var h :| h in s.handlers && s.handlers[h].run == run && Live(s.handlers[h]);
        GoesOnLooking(s, a, h);
      } else {
        CompletedBySuccess(s, a, run);
        SameComplete(s, s', run);
        SuccessStartsHandler(s, a, run);
      }
    }
  }

  lemma SameComplete(s: State, s': State, run: string)
    ensures s.tasks == s'.tasks && s.plan == s'.plan ==> Complete(s, run) == Complete(s', run)
  {
  }

  lemma ErrorsStay(s: State, a: Action)
    ensures s.storeErred ==> Next(s, a).storeErred
  {
    hide Lists, Decides, FreshRun;
  }

  lemma SuccessStartsHandler(s: State, a: Action, run: string)
    requires a.Succeed? && a.id in s.tasks && InRun(s.tasks[a.id], s.plan, run) && NoDrill(s, run)
    requires Next(s, a).tasks != s.tasks
    ensures a.handler in Next(s, a).handlers && Next(s, a).handlers[a.handler] == Handler(run, AtPlan, false)
  {
    hide Lists, Decides;
  }

  lemma StepInv(s: State, a: Action, run: string)
    requires Inv(s, run)
    ensures Inv(Next(s, a), run)
  {
    hide Next, CreationSound, SuccessStamped, RemovalSound, NoDrill, SomeoneLooks;
    StepCreation(s, a);
    StepStamped(s, a);
    StepRemoval(s, a);
    StepNoDrill(s, a, run);
    StepSomeoneLooks(s, a, run);
  }

  lemma {:induction false} RunInv(s: State, actions: seq<Action>, run: string)
    requires Inv(s, run)
    ensures Inv(Run(s, actions), run)
  {
    hide Next, Inv;
    if actions != [] {
      RunInv(s, actions[..|actions| - 1], run);
      StepInv(Run(s, actions[..|actions| - 1]), actions[|actions| - 1], run);
    }
  }

  // ---------------------------------------------------------------- the promises

  /** The start: a living plan with whatever tasks earlier runs left, succeeded, failed or still open,
      and nobody at work. */
  ghost predicate Start(s: State, run: string) {
    && s.alive && s.creating == map[] && s.handlers == map[] && SuccessStamped(s) && run != ""
    && forall id :: id in s.tasks ==> s.tasks[id].run != run
  }

  /** In every interleaving, whoever removes the plan's records for a run with an id does so when every
      task of that run has succeeded, a source task and, when expected, a target task among them. */
  lemma RemovedOnlyWhenComplete(s: State, actions: seq<Action>, run: string, h: nat)
    requires Start(s, run)
    requires var r := Run(s, actions); r.alive && h in r.handlers && r.handlers[h].run != "" && !Next(r, Remove(h)).alive
    ensures var r := Run(s, actions); Complete(r, r.handlers[h].run)
  {
    hide Run, Complete, CreationSound, SuccessStamped;
    StartInv(s, run);
    RunInv(s, actions, run);
  }

  lemma StartInv(s: State, run: string)
    requires Start(s, run)
    ensures Inv(s, run)
  {
  }

  lemma {:induction false} CompletePersists(s: State, actions: seq<Action>, run: string, k: nat)
    requires Inv(s, run) && k <= |actions| && Complete(Run(s, actions[..k]), run) && Run(s, actions).alive
    ensures Complete(Run(s, actions), run)
    decreases |actions|
  {
    hide Next, Complete;
    if k < |actions| {
      var n := |actions| - 1;
      var init := actions[..n];
      assert init[..k] == actions[..k];
      AliveBefore(Run(s, init), actions[n]);
      CompletePersists(s, init, run, k);
      RunInv(s, init, run);
      CompleteStable(Run(s, init), actions[n], run);
    } else {
      assert actions[..k] == actions;
    }
  }

  /** If at some point every task of the run has succeeded, source and expected target among them, and
      the store does not err, then once every handler and every recheck has finished the plan's records
      are gone, whatever became of earlier runs and however the handlers were interleaved. */
  lemma CompleteRunIsRemoved(s: State, actions: seq<Action>, run: string, k: nat)
    requires Start(s, run) && k <= |actions| && Complete(Run(s, actions[..k]), run)
    requires var r := Run(s, actions); !r.storeErred && forall h :: h in r.handlers ==> r.handlers[h].pc.Finished?
    ensures !Run(s, actions).alive
  {
    hide Run, Complete, CreationSound, SuccessStamped;
    StartInv(s, run);
    RunInv(s, actions, run);
    if Run(s, actions).alive {
      CompletePersists(s, actions, run, k);
    }
  }

  // ---------------------------------------------------------------- what a run consists of

  /** The rows of a run. */
  ghost function RunRows(s: State, run: string): set<string> {
    set id | id in s.tasks && s.tasks[id].run == run
  }

  ghost predicate IsRow(s: State, id: string, run: string, mode: Mode) {
    id in s.tasks && s.tasks[id].plan == s.plan.id && s.tasks[id].run == run && s.tasks[id].mode == mode
  }

  /** The rows a run has at each point of its creation: none, the source task, and in the end the source task
      and, exactly if the plan has another target cluster, the target task. */
  ghost predicate Shape(s: State, run: string) {
    if run !in s.creating || s.creating[run].NeedSource? then RunRows(s, run) == {}
    else
      match s.creating[run]
      case NeedTarget => s.plan.expectTarget && exists a :: IsRow(s, a, run, Source) && RunRows(s, run) == {a}
      case Created =>
        if s.plan.expectTarget then exists a, b :: a != b && IsRow(s, a, run, Source) && IsRow(s, b, run, Target) && RunRows(s, run) == {a, b}
        else exists a :: IsRow(s, a, run, Source) && RunRows(s, run) == {a}
      case _ => true
  }

  /** A living plan's rows keep their plan, run and mode under every step, and only creating tasks adds rows. */
  lemma RowsKept(s: State, a: Action, run: string)
    requires Next(s, a).alive
    ensures forall id, mode :: IsRow(s, id, run, mode) ==> IsRow(Next(s, a), id, run, mode)
    ensures !a.CreateTask? || a.run != run ==> RunRows(Next(s, a), run) == RunRows(s, run)
  {
    hide Next;
    AliveBefore(s, a);
    forall id, mode | IsRow(s, id, run, mode) ensures IsRow(Next(s, a), id, run, mode) {
      TaskKept(s, a, id);
    }
    if !a.CreateTask? || a.run != run {
      forall id ensures id in RunRows(Next(s, a), run) <==> id in RunRows(s, run) {
        if id in s.tasks { TaskKept(s, a, id); } else if id in Next(s, a).tasks { TaskNew(s, a, id); }
      }
    }
  }

  /** Creating a task moves the creation forward: the source task first, then, if one is expected, the target. */
  lemma CreateShape(s: State, run: string, id: string, at: int)
    requires Shape(s, run) && s.alive
    ensures Shape(CreateNext(s, run, id, at), run)
  {
    if run in s.creating && !Ended(s.creating[run]) && id !in s.tasks {
      var s' := CreateNext(s, run, id, at);
      assert RunRows(s', run) == RunRows(s, run) + {id};
      if s.creating[run].NeedSource? {
        assert IsRow(s', id, run, Source);
      } else {
        var a :| IsRow(s, a, run, Source) && RunRows(s, run) == {a};
        assert IsRow(s', a, run, Source) && IsRow(s', id, run, Target);
      }
    }
  }

  lemma StepShape(s: State, a: Action, run: string)
    requires Shape(s, run) && Next(s, a).alive
    ensures Shape(Next(s, a), run)
  {
    hide CreateNext, HandlerNext, FreshRun;
    AliveBefore(s, a);
    if a.CreateTask? && a.run == run {
      CreateShape(s, run, a.id, a.at);
    } else {
      hide Next;
      RowsKept(s, a, run);
      CreationOf(s, a, run);
    }
  }

  lemma CreationOf(s: State, a: Action, run: string)
    requires !a.CreateTask? || a.run != run
    ensures var s' := Next(s, a);
            || ((run in s'.creating <==> run in s.creating) && (run in s.creating ==> s'.creating[run] == s.creating[run]))
            || (run in s'.creating && s'.creating[run].Abandoned?)
            || (a.BeginRun? && run !in s.creating && run in s'.creating && s'.creating[run].NeedSource?)
  {
    hide HandlerNext;
    HandlerKeeps(s, a);
  }

  /** In every interleaving: a run whose creation went through has one source task and, exactly if the plan has
      another target cluster, one target task, whatever became of them since. */
  lemma {:induction false} RunHasItsTasks(s: State, actions: seq<Action>, run: string)
    requires Start(s, run) && Run(s, actions).alive
    ensures Shape(Run(s, actions), run)
  {
    hide Next;
    if actions == [] {
      assert RunRows(s, run) == {};
    } else {
      var init := actions[..|actions| - 1];
      AliveBefore(Run(s, init), actions[|actions| - 1]);
      RunHasItsTasks(s, init, run);
      StepShape(Run(s, init), actions[|actions| - 1], run);
    }
  }

  // ---------------------------------------------------------------- what one step writes

  /** Creating the tasks of a run, undisturbed: open tasks of the plan, source and then target. */
  lemma CreationWrites(s: State, run: string, a: string, b: string, at: int, at': int)
    requires Start(s, run) && a != b && a !in s.tasks && b !in s.tasks
    ensures var r := Next(Next(Next(s, BeginRun(run)), CreateTask(run, a, at)), CreateTask(run, b, at'));
            var source, target := Task(s.plan.id, run, Source, Open, false, at), Task(s.plan.id, run, Target, Open, false, at');
            && r.plan == s.plan && r.alive && r.handlers == s.handlers && r.storeErred == s.storeErred
            && r.creating == map[run := Created]
            && r.tasks == if s.plan.expectTarget then s.tasks[a := source][b := target] else s.tasks[a := source]
  {
    hide Lists, Decides;
    var s1 := Next(s, BeginRun(run));
    assert s1 == s.(creating := map[run := NeedSource]);
    var s2 := Next(s1, CreateTask(run, a, at));
    assert s2.creating == map[run := if s.plan.expectTarget then NeedTarget else Created];
  }

  /** A failure stamps an open task as failed, a success as succeeded, and neither touches a stamped one or any
      other row. */
  lemma StampWrites(s: State, id: string, h: nat)
    requires id in s.tasks && h !in s.handlers
    ensures var t := s.tasks[id];
            && Next(s, Fail(id)) == s.(tasks := s.tasks[id := if t.completed then t else t.(status := Failed, completed := true)])
            && Next(s, Succeed(id, h)).tasks == s.tasks[id := if t.completed then t else t.(status := Succeeded, completed := true)]
            && Next(s, Write(id)).tasks == s.tasks[id := if t.completed then t else t.(status := Open)]
  {
    assert s.tasks[id := s.tasks[id]] == s.tasks;
  }

  /** What a handler does at each of its operations: it stops if the plan is gone, waits once if the run is not
      complete, looks again after the wait, and stops if it was not complete then either. */
  lemma HandlerWrites(s: State, h: nat, listed: seq<Task>)
    requires h in s.handlers
    ensures var run, pc := s.handlers[h].run, s.handlers[h].pc;
            && (pc.AtPlan? ==> Next(s, LoadPlan(h)) == s.(handlers := s.handlers[h := s.handlers[h].(pc := if s.alive then AtList else Finished)]))
            && (pc.AtList? && Lists(s, listed) && run != "" ==>
                  Next(s, ListTasks(h, listed)) ==
                  s.(handlers := s.handlers[h := s.handlers[h].(pc := if Complete(s, run) then AtCleanup else if s.handlers[h].recheck then Finished else Delayed)]))
            && (pc.Delayed? ==> Next(s, Wake(h)) == s.(handlers := s.handlers[h := Handler(run, AtPlan, true)]))
            && Next(s, StoreError(h)) == s.(handlers := s.handlers[h := s.handlers[h].(pc := Finished)], storeErred := true)
  {
    hide Lists, Decides, Complete;
    if s.handlers[h].pc.AtList? && Lists(s, listed) && s.handlers[h].run != "" { ListingDecides(s, listed, s.handlers[h].run); }
  }

  /** A creation that fails is given up, one that went through is not. */
  lemma CreationFailure(s: State, run: string)
    requires run in s.creating
    ensures Next(s, CreationFails(run)) == s.(creating := s.creating[run := if s.creating[run].Created? then Created else Abandoned])
  {
    assert s.creating[run := s.creating[run]] == s.creating;
  }

  /** Removing the plan's records takes exactly the rows of the plan. */
  lemma RemovalLeavesOthers(s: State, h: nat)
    requires h in s.handlers && s.handlers[h].pc.AtCleanup?
    ensures var r := Next(s, Remove(h));
            && !r.alive
            && (forall id :: id in r.tasks <==> id in s.tasks && s.tasks[id].plan != s.plan.id)
            && (forall id :: id in r.tasks ==> r.tasks[id] == s.tasks[id])
  {
  }

  /** A run with a failed task is never complete again, so no handler of it removes the plan. */
  lemma {:induction false} FailedRunNeverCompletes(s: State, actions: seq<Action>, run: string, id: string)
    requires id in s.tasks && InRun(s.tasks[id], s.plan, run) && s.tasks[id].status.Failed? && s.tasks[id].completed
    requires Run(s, actions).alive
    ensures var r := Run(s, actions); r.plan == s.plan && id in r.tasks && r.tasks[id] == s.tasks[id] && !Complete(r, run)
  {
    hide Next;
    if actions != [] {
      var init, a := actions[..|actions| - 1], actions[|actions| - 1];
      AliveBefore(Run(s, init), a);
      FailedRunNeverCompletes(s, init, run, id);
      TaskKept(Run(s, init), a, id);
    }
  }

  /** Without a run id, the newest task of each mode decides, the first listed of equally new ones. */
  lemma LegacyDecides(tasks: seq<Task>, plan: Plan)
    ensures Decides(tasks, plan, "") <==>
            && (exists i :: IsNewest(tasks, plan, false, i) && tasks[i].status.Succeeded?)
            && (plan.expectTarget ==> exists i :: IsNewest(tasks, plan, true, i) && tasks[i].status.Succeeded?)
  {
    hide RunComplete;
    NewestIs(tasks, plan, false, |tasks|);
    NewestIs(tasks, plan, true, |tasks|);
    var s, t := Newest(tasks, plan, false, |tasks|), Newest(tasks, plan, true, |tasks|);
    forall i | IsNewest(tasks, plan, false, i) ensures i == s {}
    forall i | IsNewest(tasks, plan, true, i) ensures i == t {}
  }

  /** Task `i` is of the plan and mode, none of those is newer, and none listed before it is as new. */
  ghost predicate IsNewest(tasks: seq<Task>, plan: Plan, target: bool, i: int) {
    && 0 <= i < |tasks| && tasks[i].plan == plan.id && tasks[i].mode.Target? == target
    && forall k :: 0 <= k < |tasks| && tasks[k].plan == plan.id && tasks[k].mode.Target? == target ==>
         tasks[k].createdAt <= tasks[i].createdAt && (tasks[k].createdAt == tasks[i].createdAt ==> i <= k)
  }

  lemma {:induction false} NewestIs(tasks: seq<Task>, plan: Plan, target: bool, n: nat)
    requires n <= |tasks|
    ensures var i := Newest(tasks, plan, target, n);
            forall k :: 0 <= k < n && tasks[k].plan == plan.id && tasks[k].mode.Target? == target && i >= 0 && tasks[k].createdAt == tasks[i].createdAt ==> i <= k
  {
    if n > 0 { NewestIs(tasks, plan, target, n - 1); }
  }

  // ---------------------------------------------------------------- a run of two clusters, to its end

  lemma {:induction false} SomeListing(s: State, ids: set<string>) returns (listed: seq<Task>)
    requires ids <= s.tasks.Keys
    ensures forall t :: t in listed <==> exists id :: id in ids && s.tasks[id] == t
    decreases ids
  {
    listed := [];
    if ids != {} {
      var x :| x in ids;
      var rest := SomeListing(s, ids - {x});
      listed := rest + [s.tasks[x]];
      forall t ensures t in listed <==> exists id :: id in ids && s.tasks[id] == t {
        if id :| id in ids && s.tasks[id] == t { assert id == x || id in ids - {x}; }
      }
    }
  }

  /** Once both tasks of a run have succeeded, the handler of the second finds it complete and removes the plan. */
  lemma LastHandlerRemoves(s: State, run: string, h: nat) returns (actions: seq<Action>)
    requires s.alive && run != "" && Complete(s, run) && h in s.handlers && s.handlers[h] == Handler(run, AtPlan, false)
    ensures !Run(s, actions).alive
  {
    hide Complete, Decides;
    var s1 := Next(s, LoadPlan(h));
    assert s1 == Advance(s, h, AtList);
    var listed := SomeListing(s1, s1.tasks.Keys);
    assert Lists(s1, listed);
    SameComplete(s, s1, run);
    ListingDecides(s1, listed, run);
    var s2 := Next(s1, ListTasks(h, listed));
    assert s2 == Advance(s1, h, AtCleanup);
    hide Next;
    RemovalLeavesOthers(s2, h);
    actions := [LoadPlan(h), ListTasks(h, listed), Remove(h)];
    RunThree(s, LoadPlan(h), ListTasks(h, listed), Remove(h));
  }

  lemma RunThree(s: State, a: Action, b: Action, c: Action)
    ensures Run(s, [a, b, c]) == Next(Next(Next(s, a), b), c)
  {
    hide Next;
    RunTwo(s, a, b);
    assert [a, b, c][..2] == [a, b];
  }

  lemma {:induction false} RunAppend(s: State, xs: seq<Action>, ys: seq<Action>)
    ensures Run(s, xs + ys) == Run(Run(s, xs), ys)
    decreases |ys|
  {
    hide Next;
    if ys == [] {
      assert xs + ys == xs;
    } else {
      assert (xs + ys)[..|xs + ys| - 1] == xs + ys[..|ys| - 1];
      RunAppend(s, xs, ys[..|ys| - 1]);
    }
  }

  /** From every start of a plan with another target cluster, whatever earlier runs left, a run goes from its
      beginning to the removal of the plan. */
  lemma TwoClusterRunEnds(s: State, run: string, a: string, b: string) returns (actions: seq<Action>)
    requires Start(s, run) && s.plan.expectTarget && a != b && a !in s.tasks && b !in s.tasks
    ensures !Run(s, actions).alive
  {
    hide Next, Complete;
    CreationWrites(s, run, a, b, 0, 0);
    var created := [BeginRun(run), CreateTask(run, a, 0), CreateTask(run, b, 0)];
    RunThree(s, created[0], created[1], created[2]);
    var s3 := Run(s, created);
    BothSucceed(s3, run, a, b);
    var succeeded := [Succeed(a, 1), Succeed(b, 2)];
    RunAppend(s, created, succeeded);
    RunTwo(s3, succeeded[0], succeeded[1]);
    var s5 := Run(s, created + succeeded);
    var last := LastHandlerRemoves(s5, run, 2);
    RunAppend(s, created + succeeded, last);
    actions := created + succeeded + last;
  }

  lemma RunTwo(s: State, a: Action, b: Action)
    ensures Run(s, [a, b]) == Next(Next(s, a), b)
  {
    hide Next;
    assert [a, b][..1] == [a] && [a][..0] == [];
    assert Run(s, []) == s;
  }

  lemma BothSucceed(s: State, run: string, a: string, b: string)
    requires s.alive && s.handlers == map[] && a != b && a in s.tasks && b in s.tasks
    requires s.tasks[a].plan == s.plan.id && s.tasks[a].run == run && s.tasks[a].mode.Source? && !s.tasks[a].completed
    requires s.tasks[b].plan == s.plan.id && s.tasks[b].run == run && s.tasks[b].mode.Target? && !s.tasks[b].completed
    requires forall id :: id in s.tasks && s.tasks[id].run == run ==> id == a || id == b
    ensures var r := Next(Next(s, Succeed(a, 1)), Succeed(b, 2));
            r.alive && Complete(r, run) && 2 in r.handlers && r.handlers[2] == Handler(run, AtPlan, false)
  {
    hide Complete;
    var s1 := Next(s, Succeed(a, 1));
    assert s1 == s.(tasks := s.tasks[a := s.tasks[a].(status := Succeeded, completed := true)], handlers := map[1 := Handler(run, AtPlan, false)]);
    var r := Next(s1, Succeed(b, 2));
    assert r.tasks == s1.tasks[b := s.tasks[b].(status := Succeeded, completed := true)];
    BothComplete(r, run, a, b);
  }

  lemma BothComplete(s: State, run: string, a: string, b: string)
    requires IsRow(s, a, run, Source) && IsRow(s, b, run, Target) && s.tasks[a].status.Succeeded? && s.tasks[b].status.Succeeded?
    requires forall id :: id in s.tasks && s.tasks[id].run == run ==> id == a || id == b
    ensures Complete(s, run)
  {
  }
}
