/** Platform-direct registration sessions. An uploaded kubeconfig lives in a directory of its own and in
    an in-memory map; request handlers, expiry timers, lazy cleanup and a janitor that survives restarts
    share both. Each method of `Sessions` is one atomic step: a critical section of one of the two
    mutexes, one store operation, or one directory removal. Any sequence of steps is a run. */
module Registration {

  const UPLOAD_TTL := 15 * 60
  const RETRY_MARGIN := 60

  /** `ttl` is the registration timeout of the session's cluster type plus ten minutes. */
  datatype Upload = Upload(expiresAt: int, ttl: nat)

  /** A durable cluster-registration task. `deadline` is its credentialExpiresAt; it is queued until the
      executor claims it. */
  datatype Task = Task(session: string, active: bool, deadline: int, queued: bool)

  /** The holder of registrationRequestMu, which starts and deletes share. */
  datatype Request =
    | Idle
    | StartExtended(session: string, deadline: int)
    | StartWritten(session: string, deadline: int)
    | StartCreated(session: string, task: string)
    | StartAborting(session: string, task: string)
    | StartForgotten(session: string, task: string)
    | DeleteLooked(session: string)
    | DeleteChecked(session: string)
    | DeleteForgotten(session: string)

  /** A janitor pass: it reads the directory names, then the task list, then settles each task, then
      visits each directory. `at` is the tick the pass was started with. */
  datatype Janitor =
    | Resting
    | DirsRead(at: int, entries: set<string>)
    | Settling(at: int, entries: set<string>, todo: map<string, Task>, active: map<string, int>)
    | Visiting(at: int, entries: set<string>, active: map<string, int>)

  /** A request to cancel a task it found queued, which holds no mutex: it marks the task canceled, takes
      the session out of the map, and removes the directory if the map had it. */
  datatype CancelStage = Looked | Marked | Unlisted(found: bool)

  datatype Cancel = Cancel(task: string, stage: CancelStage)

  datatype Remover = Timer | Lazy | JanitorPass | Delete | CancelRequest | StartFailure | Executor

  /** Those who remove the directory of their own task, whether or not it is active. */
  predicate OnItsOwn(who: Remover) {
    who.StartFailure? || who.Executor?
  }

  /** A directory removal, and whether at that moment an active task with time left owned the directory. */
  datatype Removal = Removal(who: Remover, session: string, owned: bool)

  // ---------------------------------------------------------------- who owns a directory

  type Tasks = map<string, Task>
  type Uploads = map<string, Upload>

  /** The task is active and its credentials have not expired. */
  predicate Owner(tasks: Tasks, now: int, t: string) {
    t in tasks && tasks[t].active && tasks[t].deadline > now
  }

  ghost predicate Owned(tasks: Tasks, now: int, session: string) {
    exists t :: Owner(tasks, now, t) && tasks[t].session == session
  }

  /** The map entry outlives the deadline. */
  predicate Covers(uploads: Uploads, session: string, deadline: int) {
    session in uploads && uploads[session].expiresAt >= deadline
  }

  /** An owner whose session is in the map does not outlive the map entry. */
  ghost predicate TasksCovered(tasks: Tasks, uploads: Uploads, now: int) {
    forall t :: Owner(tasks, now, t) && tasks[t].session in uploads ==> Covers(uploads, tasks[t].session, tasks[t].deadline)
  }

  /** No deadline lies further ahead than a new extension of its session would reach. */
  ghost predicate InReach(tasks: Tasks, uploads: Uploads, request: Request, now: int) {
    && (forall t :: t in tasks && tasks[t].session in uploads ==> tasks[t].deadline <= now + uploads[tasks[t].session].ttl)
    && ((request.StartExtended? || request.StartWritten?) && request.session in uploads ==> request.deadline <= now + uploads[request.session].ttl)
  }

  /** A session a timer took out of the map is owned by nobody. */
  ghost predicate ExpiringFree(expiring: set<string>, tasks: Tasks, uploads: Uploads, now: int) {
    forall x :: x in expiring ==> x !in uploads && !Owned(tasks, now, x)
  }

  /** Some task was started for the session. */
  ghost predicate Taken(tasks: Tasks, session: string) {
    exists t :: t in tasks && tasks[t].session == session
  }

  /** No session is used for two tasks. */
  ghost predicate OneEach(tasks: Tasks) {
    forall t, k :: t in tasks && k in tasks && tasks[t].session == tasks[k].session ==> t == k
  }

  ghost predicate CancelsSound(cancels: map<nat, Cancel>, tasks: Tasks) {
    forall k :: k in cancels ==> cancels[k].task in tasks && (cancels[k].stage.Looked? || !tasks[cancels[k].task].active)
  }

  ghost predicate RequestSound(request: Request, tasks: Tasks, uploads: Uploads, dirs: map<string, int>, now: int) {
    match request
    case Idle => true
    case StartExtended(x, deadline) => Covers(uploads, x, deadline) || deadline <= now || Taken(tasks, x)
    case StartWritten(x, deadline) => (Covers(uploads, x, deadline) || deadline <= now) && !Taken(tasks, x)
    case StartCreated(x, t) => t in tasks && tasks[t].session == x
    case StartAborting(x, t) => t in tasks && tasks[t].session == x && x !in dirs
    case StartForgotten(x, t) => t in tasks && tasks[t].session == x
    case DeleteLooked(x) => true
    case DeleteChecked(x) => !Owned(tasks, now, x)
    case DeleteForgotten(x) => !Owned(tasks, now, x) && x !in uploads
  }

  /** Owners whose session is not in the map: after a restart, all of them. */
  ghost predicate Orphan(tasks: Tasks, uploads: Uploads, dirs: map<string, int>, now: int, t: string) {
    Owner(tasks, now, t) && tasks[t].session !in uploads && tasks[t].session in dirs
  }

  predicate Shielded(active: map<string, int>, session: string, at: int) {
    session in active && active[session] > at
  }

  /** Past its task list, the janitor knows every orphan. */
  ghost predicate JanitorSound(janitor: Janitor, tasks: Tasks, uploads: Uploads, dirs: map<string, int>, now: int) {
    match janitor
    case Resting => true
    case DirsRead(at, _) => at <= now
    case Settling(at, _, todo, active) =>
      && at <= now
      && forall t :: Orphan(tasks, uploads, dirs, now, t) ==> (t in todo && todo[t].session == tasks[t].session && todo[t].deadline == tasks[t].deadline) || Shielded(active, tasks[t].session, at)
    case Visiting(at, _, active) =>
      && at <= now
      && forall t :: Orphan(tasks, uploads, dirs, now, t) ==> Shielded(active, tasks[t].session, at)
  }

  /** Ids in use, and uploads under way that nothing else knows of yet. */
  ghost predicate IdsKnown(used: set<string>, uploads: Uploads, dirs: map<string, int>, tasks: Tasks, expiring: set<string>,
                           uploading: set<string>, request: Request) {
    && uploads.Keys <= used && dirs.Keys <= used && expiring <= used && uploading <= used
    && (forall t :: t in tasks ==> tasks[t].session in used && tasks[t].session !in uploading)
    && (request.Idle? || (request.session in used && request.session !in uploading))
    && uploading !! uploads.Keys && uploading !! expiring
  }

  /** Every directory ever written is still there, or its removal is on record. */
  ghost predicate RemovalsKnown(used: set<string>, dirs: map<string, int>, removals: seq<Removal>) {
    forall x :: x in used ==> x in dirs || exists r <- removals :: r.session == x
  }

  /** The sessions whose map entry has expired. */
  function Overdue(uploads: Uploads, now: int): set<string> {
    set x | x in uploads && uploads[x].expiresAt <= now
  }

  /** The records of one lazy cleanup: for each directory one, and no others. */
  ghost predicate LazilyRemoved(before: seq<Removal>, after: seq<Removal>, gone: set<string>) {
    && |before| <= |after| && after[..|before|] == before && |after| == |before| + |gone|
    && (forall x :: x in gone ==> Removal(Lazy, x, false) in after[|before|..])
    && (forall r <- after[|before|..] :: r.who.Lazy? && !r.owned && r.session in gone)
  }

  /** What the map holds when the sessions of `left` have not been looked at yet. */
  function StillListed(uploads: Uploads, left: set<string>, now: int): Uploads {
    map x | x in uploads && (x in left || uploads[x].expiresAt > now) :: uploads[x]
  }

  lemma CleanupBegins(uploads: Uploads, now: int)
    ensures StillListed(uploads, uploads.Keys, now) == uploads && Overdue(uploads, now) - uploads.Keys == {}
  {
  }

  lemma CleanupGoesOn(uploads: Uploads, left: set<string>, now: int, id: string)
    requires id in left && left <= uploads.Keys
    ensures id in StillListed(uploads, left, now) && StillListed(uploads, left, now)[id] == uploads[id]
    ensures var overdue := uploads[id].expiresAt <= now;
            && StillListed(uploads, left - {id}, now) == (if overdue then StillListed(uploads, left, now) - {id} else StillListed(uploads, left, now))
            && Overdue(uploads, now) - (left - {id}) == (if overdue then Overdue(uploads, now) - left + {id} else Overdue(uploads, now) - left)
            && id !in Overdue(uploads, now) - left
  {
  }

  lemma CleanupEnds(uploads: Uploads, now: int)
    ensures StillListed(uploads, {}, now) == map x | x in uploads && uploads[x].expiresAt > now :: uploads[x]
    ensures Overdue(uploads, now) - {} == Overdue(uploads, now)
  {
  }

  lemma OneMoreGone(gone: set<string>, id: string, dirs: map<string, int>)
    ensures (gone + {id}) * dirs.Keys == if id in dirs then gone * dirs.Keys + {id} else gone * dirs.Keys
    ensures dirs - gone - {id} == dirs - (gone + {id})
    ensures id !in gone ==> (id in dirs - gone <==> id in dirs)
  {
  }

  lemma NothingRemoved(removals: seq<Removal>)
    ensures LazilyRemoved(removals, removals, {})
  {
  }

  lemma OneMoreRemoved(before: seq<Removal>, was: seq<Removal>, after: seq<Removal>, gone: set<string>, x: string, there: bool)
    requires LazilyRemoved(before, was, gone) && x !in gone && after == was + (if there then [Removal(Lazy, x, false)] else [])
    ensures LazilyRemoved(before, after, if there then gone + {x} else gone)
  {
    if there {
      assert after[|before|..] == was[|before|..] + [Removal(Lazy, x, false)];
    } else {
      assert after == was;
    }
  }

  /** The executor and a start handler remove only the directory of a session a task was started for. */
  ghost predicate RemovalsOwn(removals: seq<Removal>, tasks: Tasks) {
    forall r <- removals :: OnItsOwn(r.who) ==> Taken(tasks, r.session)
  }

  /** The tasks are the same but for their progress, and none has become active. */
  ghost predicate Progressed(tasks: Tasks, later: Tasks) {
    && tasks.Keys == later.Keys
    && forall t :: t in tasks ==>
         later[t].session == tasks[t].session && later[t].deadline == tasks[t].deadline && (later[t].active ==> tasks[t].active)
  }

  /** The task is over. */
  function Ended(tasks: Tasks, t: string): Tasks {
    if t in tasks then tasks[t := tasks[t].(active := false)] else tasks
  }

  lemma ProgressKeeps(tasks: Tasks, later: Tasks, cancels: map<nat, Cancel>, removals: seq<Removal>)
    requires Progressed(tasks, later) && OneEach(tasks) && CancelsSound(cancels, tasks) && RemovalsOwn(removals, tasks)
    ensures OneEach(later) && CancelsSound(cancels, later) && RemovalsOwn(removals, later)
    ensures forall x :: Taken(later, x) <==> Taken(tasks, x)
  {
  }

  lemma InReachIdle(tasks: Tasks, uploads: Uploads, r: Request, r': Request, now: int)
    requires InReach(tasks, uploads, r, now) && !r'.StartExtended? && !r'.StartWritten?
    ensures InReach(tasks, uploads, r', now)
  {
  }

  /** Taking a session nobody owns out of the map disturbs nothing else. */
  lemma Unlist(janitor: Janitor, expiring: set<string>, tasks: Tasks, uploads: Uploads, dirs: map<string, int>, request: Request, now: int, x: string)
    requires TasksCovered(tasks, uploads, now) && InReach(tasks, uploads, request, now) && ExpiringFree(expiring, tasks, uploads, now)
    requires JanitorSound(janitor, tasks, uploads, dirs, now) && !Owned(tasks, now, x)
    ensures TasksCovered(tasks, uploads - {x}, now) && InReach(tasks, uploads - {x}, request, now)
    ensures ExpiringFree(expiring, tasks, uploads - {x}, now) && ExpiringFree(expiring + {x}, tasks, uploads - {x}, now)
    ensures JanitorSound(janitor, tasks, uploads - {x}, dirs, now)
  {
    forall t | Orphan(tasks, uploads - {x}, dirs, now, t) ensures Orphan(tasks, uploads, dirs, now, t) {}
  }

  lemma NewTaskKeeps(tasks: Tasks, t: string, added: Task, cancels: map<nat, Cancel>, removals: seq<Removal>)
    requires t !in tasks && !Taken(tasks, added.session) && OneEach(tasks) && CancelsSound(cancels, tasks) && RemovalsOwn(removals, tasks)
    ensures OneEach(tasks[t := added]) && CancelsSound(cancels, tasks[t := added]) && RemovalsOwn(removals, tasks[t := added])
  {
    forall x | Taken(tasks, x) ensures Taken(tasks[t := added], x) {
      var k :| k in tasks && tasks[k].session == x;
      assert k in tasks[t := added] && tasks[t := added][k].session == x;
    }
  }

  lemma NoCancels(tasks: Tasks)
    ensures CancelsSound(map[], tasks)
  {
  }

  /** With nothing in memory there is nothing to get wrong but the ids. */
  lemma ForgetMemory(used: set<string>, uploads: Uploads, dirs: map<string, int>, tasks: Tasks, expiring: set<string>,
                     uploading: set<string>, request: Request, now: int)
    requires IdsKnown(used, uploads, dirs, tasks, expiring, uploading, request)
    ensures IdsKnown(used, map[], dirs, tasks, {}, {}, Idle)
    ensures TasksCovered(tasks, map[], now) && InReach(tasks, map[], Idle, now) && ExpiringFree({}, tasks, map[], now)
    ensures RequestSound(Idle, tasks, map[], dirs, now) && JanitorSound(Resting, tasks, map[], dirs, now)
  {
  }

  // ---------------------------------------------------------------- the shared state

  /** The progress or end of a task makes no owner and disturbs nothing else. */
  lemma TaskProgress(used: set<string>, uploads: Uploads, dirs: map<string, int>, tasks: Tasks, expiring: set<string>,
                     uploading: set<string>, request: Request, janitor: Janitor, now: int, later: Tasks)
    requires Progressed(tasks, later) && IdsKnown(used, uploads, dirs, tasks, expiring, uploading, request)
    requires TasksCovered(tasks, uploads, now) && InReach(tasks, uploads, request, now) && ExpiringFree(expiring, tasks, uploads, now)
    requires RequestSound(request, tasks, uploads, dirs, now) && JanitorSound(janitor, tasks, uploads, dirs, now)
    ensures IdsKnown(used, uploads, dirs, later, expiring, uploading, request)
    ensures TasksCovered(later, uploads, now) && InReach(later, uploads, request, now) && ExpiringFree(expiring, later, uploads, now)
    ensures RequestSound(request, later, uploads, dirs, now) && JanitorSound(janitor, later, uploads, dirs, now)
  {
    assert forall k :: Owner(later, now, k) ==> Owner(tasks, now, k);
    assert forall x :: Taken(tasks, x) <==> Taken(later, x);
  }

  /** A session with a task can leave the map under any request: a start that has got past its look for
      tasks holds another session. */
  lemma UnlistTaken(request: Request, tasks: Tasks, uploads: Uploads, dirs: map<string, int>, now: int, x: string)
    requires RequestSound(request, tasks, uploads, dirs, now) && Taken(tasks, x)
    ensures RequestSound(request, tasks, uploads - {x}, dirs, now)
  {
  }

  /** A session whose task is over is owned by nobody. */
  lemma EndedIsFree(tasks: Tasks, now: int, t: string)
    requires OneEach(tasks) && t in tasks && !tasks[t].active
    ensures !Owned(tasks, now, tasks[t].session)
  {
  }

  /** Releasing the request mutex disturbs nothing. */
  lemma Release(used: set<string>, uploads: Uploads, dirs: map<string, int>, tasks: Tasks, expiring: set<string>,
                uploading: set<string>, request: Request, now: int)
    requires IdsKnown(used, uploads, dirs, tasks, expiring, uploading, request) && InReach(tasks, uploads, request, now)
    ensures IdsKnown(used, uploads, dirs, tasks, expiring, uploading, Idle) && InReach(tasks, uploads, Idle, now)
    ensures RequestSound(Idle, tasks, uploads, dirs, now)
  {
  }

  lemma ForgottenTask(request: Request, tasks: Tasks, uploads: Uploads, dirs: map<string, int>, now: int)
    requires RequestSound(request, tasks, uploads, dirs, now) && request.StartForgotten?
    ensures request.task in tasks
  {
  }

  /** A session nobody knows yet can enter the map. */
  lemma ListUpload(used: set<string>, uploads: Uploads, dirs: map<string, int>, tasks: Tasks, expiring: set<string>,
                   uploading: set<string>, request: Request, janitor: Janitor, now: int, id: string, u: Upload)
    requires id in uploading && IdsKnown(used, uploads, dirs, tasks, expiring, uploading, request)
    requires TasksCovered(tasks, uploads, now) && InReach(tasks, uploads, request, now) && ExpiringFree(expiring, tasks, uploads, now)
    requires RequestSound(request, tasks, uploads, dirs, now) && JanitorSound(janitor, tasks, uploads, dirs, now)
    ensures IdsKnown(used, uploads[id := u], dirs, tasks, expiring, uploading - {id}, request)
    ensures TasksCovered(tasks, uploads[id := u], now) && InReach(tasks, uploads[id := u], request, now) && ExpiringFree(expiring, tasks, uploads[id := u], now)
    ensures RequestSound(request, tasks, uploads[id := u], dirs, now) && JanitorSound(janitor, tasks, uploads[id := u], dirs, now)
  {
    hide Owned, Taken;
  }

  /** A task added under the request mutex is covered by the session's map entry, or has no time left. */
  lemma AddTask(used: set<string>, uploads: Uploads, dirs: map<string, int>, tasks: Tasks, expiring: set<string>,
                uploading: set<string>, request: Request, janitor: Janitor, now: int, t: string, added: Task)
    requires request.StartWritten? && t !in tasks && added.session == request.session && added.deadline == request.deadline
    requires IdsKnown(used, uploads, dirs, tasks, expiring, uploading, request)
    requires TasksCovered(tasks, uploads, now) && InReach(tasks, uploads, request, now) && ExpiringFree(expiring, tasks, uploads, now)
    requires RequestSound(request, tasks, uploads, dirs, now) && JanitorSound(janitor, tasks, uploads, dirs, now)
    ensures var more, next := tasks[t := added], StartCreated(request.session, t);
            && IdsKnown(used, uploads, dirs, more, expiring, uploading, next)
            && TasksCovered(more, uploads, now) && InReach(more, uploads, next, now) && ExpiringFree(expiring, more, uploads, now)
            && RequestSound(next, more, uploads, dirs, now) && JanitorSound(janitor, more, uploads, dirs, now) && !Taken(tasks, request.session)
  {
    var more := tasks[t := added];
    assert forall k :: k != t && Owner(more, now, k) ==> Owner(tasks, now, k);
    assert Owner(more, now, t) ==> Covers(uploads, request.session, request.deadline);
  }

  /** Time makes no owner. */
  lemma TimePasses(uploads: Uploads, dirs: map<string, int>, tasks: Tasks, expiring: set<string>, request: Request, janitor: Janitor, now: int, later: int)
    requires now <= later
    requires TasksCovered(tasks, uploads, now) && InReach(tasks, uploads, request, now) && ExpiringFree(expiring, tasks, uploads, now)
    requires RequestSound(request, tasks, uploads, dirs, now) && JanitorSound(janitor, tasks, uploads, dirs, now)
    ensures TasksCovered(tasks, uploads, later) && InReach(tasks, uploads, request, later) && ExpiringFree(expiring, tasks, uploads, later)
    ensures RequestSound(request, tasks, uploads, dirs, later) && JanitorSound(janitor, tasks, uploads, dirs, later)
  {
    assert forall t :: Owner(tasks, later, t) ==> Owner(tasks, now, t);
  }

  class Sessions {
    var now: int
    var uploads: Uploads
    /** Session directories on disk and the modification time of their kubeconfig. */
    var dirs: map<string, int>
    var tasks: Tasks
    var timers: set<(string, int)>
    /** Sessions a timer has taken out of the map and whose directory it is about to remove. */
    var expiring: set<string>
    /** Sessions whose directory is written but which are not in the map yet. */
    var uploading: set<string>
    var request: Request
    var janitor: Janitor
    /** Every session id ever drawn: ids are random and not drawn twice. */
    var used: set<string>
    var cancels: map<nat, Cancel>
    ghost var removals: seq<Removal>

    /** None of timer, lazy cleanup, janitor, delete and cancel ever removed an owned directory. */
    ghost predicate RemovalsSafe()
      reads this`removals
    {
      forall r <- removals :: OnItsOwn(r.who) || !r.owned
    }

    ghost predicate Valid()
      reads this
    {
      && IdsKnown(used, uploads, dirs, tasks, expiring, uploading, request)
      && TasksCovered(tasks, uploads, now)
      && InReach(tasks, uploads, request, now)
      && ExpiringFree(expiring, tasks, uploads, now)
      && RequestSound(request, tasks, uploads, dirs, now)
      && JanitorSound(janitor, tasks, uploads, dirs, now)
      && RemovalsSafe() && RemovalsKnown(used, dirs, removals)
      && OneEach(tasks) && CancelsSound(cancels, tasks) && RemovalsOwn(removals, tasks)
    }

    constructor ()
      ensures Valid() && dirs == map[] && tasks == map[] && uploads == map[] && removals == [] && used == {} && request == Idle
    {
      now := 0;
      uploads, dirs, tasks := map[], map[], map[];
      timers, expiring, uploading := {}, {}, {};
      request, janitor := Idle, Resting;
      used, cancels, removals := {}, map[], [];
    }

    /** `os.RemoveAll`: the directory goes, nothing else changes. */
    method RemoveDir(session: string, who: Remover)
      requires Valid() && (if OnItsOwn(who) then Taken(tasks, session) else !Owned(tasks, now, session))
      modifies this`dirs, this`removals
      ensures Valid()
      ensures dirs == old(dirs) - {session}
      ensures removals == old(removals) + (if session in old(dirs) then [Removal(who, session, Owned(tasks, now, session))] else [])
    {
      hide TasksCovered, InReach, ExpiringFree, Covers, Owned, Shielded, Taken, OneEach, CancelsSound;
      ghost var before := removals;
      if session in dirs {
        ghost var removal := Removal(who, session, Owned(tasks, now, session));
        removals := removals + [removal];
        assert removal in removals;
      }
      assert forall r <- before :: r in removals;
      dirs := dirs - {session};
    }

    // ------------------------------------------------------------ the world

    method Tick(seconds: nat)
      requires Valid()
      modifies this`now
      ensures Valid() && now == old(now) + seconds
    {
      hide IdsKnown, TasksCovered, InReach, ExpiringFree, RequestSound, JanitorSound, RemovalsSafe, RemovalsKnown, OneEach, CancelsSound, RemovalsOwn;
      TimePasses(uploads, dirs, tasks, expiring, request, janitor, now, now + seconds);
      now := now + seconds;
    }

    /** The executor finishes, fails or cancels a task. */
    method TaskEnds(t: string)
      requires Valid() && t in tasks
      modifies this`tasks
      ensures Valid() && tasks == old(tasks)[t := old(tasks)[t].(active := false)]
    {
      hide IdsKnown, TasksCovered, InReach, ExpiringFree, RequestSound, JanitorSound, RemovalsSafe, RemovalsKnown, OneEach, CancelsSound, RemovalsOwn;
      Progress(tasks[t := tasks[t].(active := false)]);
    }

    method Progress(later: Tasks)
      requires Valid() && Progressed(tasks, later)
      modifies this`tasks
      ensures Valid() && tasks == later
    {
      hide IdsKnown, TasksCovered, InReach, ExpiringFree, RequestSound, JanitorSound, RemovalsSafe, RemovalsKnown, OneEach, CancelsSound, RemovalsOwn;
      TaskProgress(used, uploads, dirs, tasks, expiring, uploading, request, janitor, now, later);
      ProgressKeeps(tasks, later, cancels, removals);
      tasks := later;
    }

    /** The executor claims a queued task. */
    method ExecutorClaims(t: string)
      requires Valid() && t in tasks && tasks[t].active && tasks[t].queued
      modifies this`tasks
      ensures Valid() && tasks == old(tasks)[t := old(tasks)[t].(queued := false)]
    {
      hide IdsKnown, TasksCovered, InReach, ExpiringFree, RequestSound, JanitorSound, RemovalsSafe, RemovalsKnown, OneEach, CancelsSound, RemovalsOwn;
      Progress(tasks[t := tasks[t].(queued := false)]);
    }

    /** The executor removes the directory of a task it claimed: after the installer has ended and before
        it writes the end of the task, and again after writing a failure. */
    method ExecutorRemoves(t: string)
      requires Valid() && t in tasks && !tasks[t].queued
      modifies this`dirs, this`removals
      ensures Valid() && dirs == old(dirs) - {tasks[t].session}
      ensures removals == old(removals) +
                (if tasks[t].session in old(dirs) then [Removal(Executor, tasks[t].session, Owned(tasks, now, tasks[t].session))] else [])
    {
      hide IdsKnown, TasksCovered, InReach, ExpiringFree, RequestSound, JanitorSound, RemovalsSafe, RemovalsKnown, OneEach, CancelsSound, RemovalsOwn;
      RemoveDir(tasks[t].session, Executor);
    }

    // ------------------------------------------------------------ canceling a task

    /** `cancelTask` finds the task active and queued. */
    method CancelLook(k: nat, t: string)
      requires Valid() && k !in cancels && t in tasks && tasks[t].active && tasks[t].queued
      modifies this`cancels
      ensures Valid() && cancels == old(cancels)[k := Cancel(t, Looked)]
    {
      hide IdsKnown, TasksCovered, InReach, ExpiringFree, RequestSound, JanitorSound, RemovalsSafe, RemovalsKnown, OneEach, RemovalsOwn;
      cancels := cancels[k := Cancel(t, Looked)];
    }

    /** It marks the task canceled, whatever became of it since; without that it does nothing more. */
    method CancelMark(k: nat, saved: bool)
      requires Valid() && k in cancels && cancels[k].stage.Looked?
      modifies this`cancels, this`tasks
      ensures Valid()
      ensures tasks == if saved then old(tasks)[old(cancels)[k].task := old(tasks)[old(cancels)[k].task].(active := false)] else old(tasks)
      ensures cancels == if saved then old(cancels)[k := Cancel(old(cancels)[k].task, Marked)] else old(cancels) - {k}
    {
      hide IdsKnown, TasksCovered, InReach, ExpiringFree, RequestSound, JanitorSound, RemovalsSafe, RemovalsKnown, OneEach, RemovalsOwn;
      if !saved {
        cancels := cancels - {k};
        return;
      }
      var t := cancels[k].task;
      Progress(tasks[t := tasks[t].(active := false)]);
      cancels := cancels[k := Cancel(t, Marked)];
    }

    /** It takes the session out of the map, under the map's mutex but not the requests'. */
    method CancelUnlist(k: nat)
      requires Valid() && k in cancels && cancels[k].stage.Marked?
      modifies this`cancels, this`uploads
      ensures Valid() && old(cancels)[k].task in tasks
      ensures var x := tasks[old(cancels)[k].task].session;
              uploads == old(uploads) - {x} && cancels == old(cancels)[k := Cancel(old(cancels)[k].task, Unlisted(x in old(uploads)))]
    {
      hide TasksCovered, InReach, ExpiringFree, JanitorSound, Owned, RemovalsSafe, RemovalsKnown, RemovalsOwn;
      var t := cancels[k].task;
      var x := tasks[t].session;
      EndedIsFree(tasks, now, t);
      Unlist(janitor, expiring, tasks, uploads, dirs, request, now, x);
      UnlistTaken(request, tasks, uploads, dirs, now, x);
      cancels := cancels[k := Cancel(t, Unlisted(x in uploads))];
      uploads := uploads - {x};
    }

    /** It removes the directory if the map had the session: the only task of the session is over. */
    method CancelRemove(k: nat)
      requires Valid() && k in cancels && cancels[k].stage.Unlisted?
      modifies this`cancels, this`dirs, this`removals
      ensures Valid() && cancels == old(cancels) - {k} && old(cancels)[k].task in tasks
      ensures dirs == if old(cancels)[k].stage.found then old(dirs) - {tasks[old(cancels)[k].task].session} else old(dirs)
      ensures removals == old(removals) + (if dirs == old(dirs) then [] else [Removal(CancelRequest, tasks[old(cancels)[k].task].session, false)])
    {
      hide IdsKnown, TasksCovered, InReach, ExpiringFree, RequestSound, JanitorSound, RemovalsSafe, RemovalsKnown, OneEach, RemovalsOwn;
      var t := cancels[k].task;
      EndedIsFree(tasks, now, t);
      if cancels[k].stage.found {
        RemoveDir(tasks[t].session, CancelRequest);
      }
      cancels := cancels - {k};
    }

    /** The API process restarts: memory is lost, directories and tasks are not. */
    method Restart()
      requires Valid()
      modifies this
      ensures Valid() && uploads == map[] && dirs == old(dirs) && tasks == old(tasks) && removals == old(removals) && now == old(now)
      ensures request == Idle && janitor == Resting && cancels == map[] && timers == {} && expiring == {} && uploading == {} && used == old(used)
    {
      hide IdsKnown, TasksCovered, InReach, ExpiringFree, RequestSound, JanitorSound, RemovalsSafe, RemovalsKnown, OneEach, CancelsSound, RemovalsOwn;
      ForgetMemory(used, uploads, dirs, tasks, expiring, uploading, request, now);
      uploads, timers, expiring, uploading := map[], {}, {}, {};
      request, janitor, cancels := Idle, Resting, map[];
      assert CancelsSound(cancels, tasks) by { NoCancels(tasks); }
    }

    // ------------------------------------------------------------ uploading

    /** The upload handler draws an id and writes the directory. */
    method UploadDir(id: string)
      requires Valid() && id !in used
      modifies this`dirs, this`uploading, this`used
      ensures Valid() && dirs == old(dirs)[id := now] && uploading == old(uploading) + {id} && used == old(used) + {id}
    {
      hide TasksCovered, InReach, ExpiringFree, Covers, Owned, Shielded, Taken, OneEach, CancelsSound, RemovalsOwn;
      NotYetOrphan(id);
      dirs := dirs[id := now];
      uploading := uploading + {id};
      used := used + {id};
    }

    /** A new directory makes nobody an orphan: no task names a session never drawn. */
    lemma NotYetOrphan(id: string)
      requires Valid() && id !in used
      ensures forall t :: Orphan(tasks, uploads, dirs[id := now], now, t) ==> Orphan(tasks, uploads, dirs, now, t)
    {
      hide TasksCovered, InReach, ExpiringFree, RequestSound, JanitorSound;
    }

    /** It then enters the session into the map, under the map's mutex. */
    method UploadRegister(id: string, expiresAt: int, ttl: nat)
      requires Valid() && id in uploading
      modifies this`uploads, this`uploading, this`timers
      ensures Valid() && uploads == old(uploads)[id := Upload(expiresAt, ttl)]
      ensures uploading == old(uploading) - {id} && timers == old(timers) + {(id, expiresAt)}
    {
      hide IdsKnown, TasksCovered, InReach, ExpiringFree, RequestSound, JanitorSound, RemovalsSafe, RemovalsKnown, OneEach, CancelsSound, RemovalsOwn;
      ListUpload(used, uploads, dirs, tasks, expiring, uploading, request, janitor, now, id, Upload(expiresAt, ttl));
      uploads := uploads[id := Upload(expiresAt, ttl)];
      uploading := uploading - {id};
      timers := timers + {(id, expiresAt)};
    }

    // ------------------------------------------------------------ lazy cleanup and timers

    /** An expired session leaves the map and the disk. */
    method Forget(id: string)
      requires Valid() && id in uploads && uploads[id].expiresAt <= now
      modifies this`uploads, this`dirs, this`removals
      ensures Valid() && uploads == old(uploads) - {id} && dirs == old(dirs) - {id}
      ensures removals == old(removals) + (if id in old(dirs) then [Removal(Lazy, id, false)] else [])
    {
      hide TasksCovered, InReach, ExpiringFree, JanitorSound, Owned, RemovalsKnown, OneEach, CancelsSound, RemovalsOwn;
      ExpiredIsFree(id);
      Unlist(janitor, expiring, tasks, uploads, dirs, request, now, id);
      uploads := uploads - {id};
      RemoveDir(id, Lazy);
    }

    /** `cleanupExpiredCCEKubeconfigsLocked`: every expired session leaves the map and the disk, and nothing
        else does. */
    method LazyCleanup()
      requires Valid()
      modifies this`uploads, this`dirs, this`removals
      ensures Valid()
      ensures uploads == map x | x in old(uploads) && old(uploads)[x].expiresAt > now :: old(uploads)[x]
      ensures dirs == old(dirs) - Overdue(old(uploads), now)
      ensures LazilyRemoved(old(removals), removals, Overdue(old(uploads), now) * old(dirs).Keys)
    {
      hide IdsKnown, TasksCovered, InReach, ExpiringFree, RequestSound, JanitorSound, RemovalsSafe, RemovalsKnown, OneEach, CancelsSound, RemovalsOwn, LazilyRemoved, Overdue, StillListed;
      ghost var all := uploads;
      var left := uploads.Keys;
      ghost var gone: set<string> := {};
      NothingRemoved(removals);
      assert gone * dirs.Keys == {};
      CleanupBegins(uploads, now);
      while left != {}
        invariant left <= all.Keys
        invariant Valid()
        invariant uploads == StillListed(all, left, now)
        invariant gone == Overdue(all, now) - left && dirs == old(dirs) - gone
        invariant LazilyRemoved(old(removals), removals, gone * old(dirs).Keys)
        decreases left
      {
        var id :| id in left;
        CleanupGoesOn(all, left, now, id);
        if uploads[id].expiresAt <= now {
          ghost var was := removals;
          OneMoreGone(gone, id, old(dirs));
          Forget(id);
          OneMoreRemoved(old(removals), was, removals, gone * old(dirs).Keys, id, id in old(dirs));
          gone := gone + {id};
        }
        left := left - {id};
      }
      CleanupEnds(all, now);
    }

    /** A session whose map entry has expired is owned by nobody. */
    lemma ExpiredIsFree(id: string)
      requires Valid() && id in uploads && uploads[id].expiresAt <= now
      ensures !Owned(tasks, now, id)
    {
    }

    /** `expireCCEKubeconfig`, first half: the timer takes an expired session out of the map. */
    method TimerFires(id: string, at: int)
      requires Valid() && (id, at) in timers && at <= now
      modifies this`timers, this`uploads, this`expiring
      ensures Valid() && timers == old(timers) - {(id, at)}
      ensures var expired := id in old(uploads) && old(uploads)[id].expiresAt <= now;
              && uploads == (if expired then old(uploads) - {id} else old(uploads))
              && expiring == (if expired then old(expiring) + {id} else old(expiring))
    {
      hide TasksCovered, InReach, ExpiringFree, JanitorSound, Owned, RemovalsKnown, OneEach, CancelsSound, RemovalsOwn;
      timers := timers - {(id, at)};
      if id in uploads && uploads[id].expiresAt <= now {
        ExpiredIsFree(id);
        Unlist(janitor, expiring, tasks, uploads, dirs, request, now, id);
        uploads := uploads - {id};
        expiring := expiring + {id};
      }
    }

    /** Second half, outside the mutex: it removes the directory. */
    method TimerRemoves(id: string)
      requires Valid() && id in expiring
      modifies this`expiring, this`dirs, this`removals
      ensures Valid() && dirs == old(dirs) - {id} && expiring == old(expiring) - {id}
      ensures removals == old(removals) + (if id in old(dirs) then [Removal(Timer, id, false)] else [])
    {
      hide TasksCovered, InReach, JanitorSound, RequestSound, RemovalsKnown, OneEach, CancelsSound, RemovalsOwn;
      RemoveDir(id, Timer);
      expiring := expiring - {id};
    }

    // ------------------------------------------------------------ starting a registration

    /** `startCCEDirectRegistration`, under both mutexes: lazy cleanup, and the session's life is
        extended beyond the task's. `allowed` stands for the checks of owner, context and inspection. */
    method StartBegin(id: string, allowed: bool)
      requires Valid() && request.Idle?
      modifies this`uploads, this`dirs, this`removals, this`timers, this`request
      ensures Valid()
      ensures request == if allowed && id in old(uploads) && old(uploads)[id].expiresAt > now
                         then StartExtended(id, now + old(uploads)[id].ttl) else Idle
      ensures request.StartExtended? ==> Covers(uploads, id, request.deadline) && (id, request.deadline) in timers
      ensures dirs == old(dirs) - Overdue(old(uploads), now)
      ensures LazilyRemoved(old(removals), removals, Overdue(old(uploads), now) * old(dirs).Keys)
      ensures forall x :: x != id && x in old(uploads) && old(uploads)[x].expiresAt > now ==> x in uploads && uploads[x] == old(uploads)[x]
      ensures forall x :: x in uploads ==> x in old(uploads) && old(uploads)[x].expiresAt > now
    {
      hide RemovalsKnown, OneEach, CancelsSound, RemovalsOwn, LazilyRemoved;
      LazyCleanup();
      if id in uploads && allowed {
        Extend(id);
      }
    }

    method Extend(id: string)
      requires Valid() && request.Idle? && id in uploads && uploads[id].expiresAt > now
      modifies this`uploads, this`timers, this`request
      ensures Valid()
      ensures var at := now + old(uploads)[id].ttl;
              && uploads == old(uploads)[id := Upload(at, old(uploads)[id].ttl)]
              && timers == old(timers) + {(id, at)} && request == StartExtended(id, at)
    {
      hide RemovalsKnown, OneEach, CancelsSound, RemovalsOwn;
      var expiresAt := now + uploads[id].ttl;
      uploads := uploads[id := uploads[id].(expiresAt := expiresAt)];
      timers := timers + {(id, expiresAt)};
      request := StartExtended(id, expiresAt);
    }

    /** The session must not belong to a task yet, and the request file must find its directory; `ok` says
        that the lookup, the token and the write work. */
    method StartWrite(ok: bool)
      requires Valid() && request.StartExtended?
      modifies this`request
      ensures Valid()
      ensures var x := old(request).session;
              request == if ok && x in dirs && (forall t :: t in tasks ==> tasks[t].session != x) then StartWritten(x, old(request).deadline) else Idle
    {
      hide TasksCovered, ExpiringFree, JanitorSound, RemovalsSafe, RemovalsKnown, OneEach, CancelsSound, RemovalsOwn;
      var used := exists t <- tasks.Keys :: tasks[t].session == request.session;
      request := if !ok || used || request.session !in dirs then Idle else StartWritten(request.session, request.deadline);
    }

    /** The durable task appears, with the extended expiry as its credential deadline. */
    method StartCreate(t: string, ok: bool)
      requires Valid() && request.StartWritten? && t !in tasks
      modifies this`tasks, this`request
      ensures Valid()
      ensures tasks == if ok then old(tasks)[t := Task(old(request).session, true, old(request).deadline, true)] else old(tasks)
      ensures request == if ok then StartCreated(old(request).session, t) else Idle
    {
      hide IdsKnown, TasksCovered, InReach, ExpiringFree, RequestSound, JanitorSound, RemovalsSafe, RemovalsKnown, OneEach, CancelsSound, RemovalsOwn, Taken;
      if !ok {
        Release(used, uploads, dirs, tasks, expiring, uploading, request, now);
        request := Idle;
        return;
      }
      AddTask(used, uploads, dirs, tasks, expiring, uploading, request, janitor, now, t, Task(request.session, true, request.deadline, true));
      NewTaskKeeps(tasks, t, Task(request.session, true, request.deadline, true), cancels, removals);
      tasks := tasks[t := Task(request.session, true, request.deadline, true)];
      request := StartCreated(request.session, t);
    }

    /** If the new task still has time, its session is in the map, so it is neither expiring nor an orphan. */
    lemma NewOwnerKnown(t: string)
      requires Valid() && request.StartWritten? && t !in tasks
      ensures request.deadline > now ==> Covers(uploads, request.session, request.deadline) && request.session !in expiring
    {
    }

    /** The executor job starts, or the handler begins to undo: it removes the directory first. */
    method StartLaunch(ok: bool)
      requires Valid() && request.StartCreated?
      modifies this`request, this`dirs, this`removals
      ensures Valid()
      ensures request == if ok then Idle else StartAborting(old(request).session, old(request).task)
      ensures dirs == if ok then old(dirs) else old(dirs) - {old(request).session}
      ensures removals == old(removals) +
                (if !ok && old(request).session in old(dirs) then [Removal(StartFailure, old(request).session, Owned(tasks, now, old(request).session))] else [])
    {
      hide RemovalsKnown, OneEach, CancelsSound, RemovalsOwn;
      if ok {
        request := Idle;
        return;
      }
      RemoveDir(request.session, StartFailure);
      request := StartAborting(request.session, request.task);
    }

    /** ... then forgets the session, whose directory is gone ... */
    method StartForget()
      requires Valid() && request.StartAborting?
      modifies this`request, this`uploads
      ensures Valid() && request == StartForgotten(old(request).session, old(request).task) && uploads == old(uploads) - {old(request).session}
    {
      hide RemovalsSafe, RemovalsKnown, OneEach, CancelsSound, RemovalsOwn;
      uploads := uploads - {request.session};
      request := StartForgotten(request.session, request.task);
    }

    /** ... and fails the task, if that can be saved. */
    method StartFail(saved: bool)
      requires Valid() && request.StartForgotten?
      modifies this`request, this`tasks
      ensures Valid() && request == Idle
      ensures tasks == if saved then Ended(old(tasks), old(request).task) else old(tasks)
    {
      hide IdsKnown, TasksCovered, InReach, ExpiringFree, RequestSound, JanitorSound, RemovalsSafe, RemovalsKnown, OneEach, CancelsSound, RemovalsOwn;
      ForgottenTask(request, tasks, uploads, dirs, now);
      var t := request.task;
      if saved {
        Progress(tasks[t := tasks[t].(active := false)]);
      }
      Release(used, uploads, dirs, tasks, expiring, uploading, request, now);
      request := Idle;
    }

    // ------------------------------------------------------------ deleting a session

    method DeleteBegin(id: string, owner: bool)
      requires Valid() && request.Idle?
      modifies this`request
      ensures Valid() && request == if id in uploads && owner then DeleteLooked(id) else Idle
    {
      hide TasksCovered, ExpiringFree, JanitorSound, RemovalsSafe, RemovalsKnown, OneEach, CancelsSound, RemovalsOwn;
      if id in uploads && owner {
        request := DeleteLooked(id);
      }
    }

    /** Refused while a task of the session is active, or if the tasks could not be listed. */
    method DeleteCheck(ok: bool)
      requires Valid() && request.DeleteLooked?
      modifies this`request
      ensures Valid()
      ensures var x := old(request).session;
              request == if !ok || exists t :: t in tasks && tasks[t].session == x && tasks[t].active then Idle else DeleteChecked(x)
    {
      hide TasksCovered, ExpiringFree, JanitorSound, RemovalsSafe, RemovalsKnown, OneEach, CancelsSound, RemovalsOwn;
      var busy := exists t <- tasks.Keys :: tasks[t].session == request.session && tasks[t].active;
      request := if !ok || busy then Idle else DeleteChecked(request.session);
    }

    method DeleteForget()
      requires Valid() && request.DeleteChecked?
      modifies this`request, this`uploads
      ensures Valid() && uploads == old(uploads) - {old(request).session} && request == DeleteForgotten(old(request).session)
    {
      hide TasksCovered, InReach, ExpiringFree, JanitorSound, Owned, RemovalsKnown, OneEach, CancelsSound, RemovalsOwn;
      Unlist(janitor, expiring, tasks, uploads, dirs, request, now, request.session);
      InReachIdle(tasks, uploads - {request.session}, request, DeleteForgotten(request.session), now);
      uploads := uploads - {request.session};
      request := DeleteForgotten(request.session);
    }

    method DeleteRemove()
      requires Valid() && request.DeleteForgotten?
      modifies this`request, this`dirs, this`removals
      ensures Valid() && dirs == old(dirs) - {old(request).session} && request == Idle
      ensures removals == old(removals) + (if old(request).session in old(dirs) then [Removal(Delete, old(request).session, false)] else [])
    {
      hide TasksCovered, ExpiringFree, JanitorSound, RemovalsSafe, RemovalsKnown, OneEach, CancelsSound, RemovalsOwn, InReach, Owned;
      RemoveDir(request.session, Delete);
      InReachIdle(tasks, uploads, request, Idle, now);
      request := Idle;
    }

    // ------------------------------------------------------------ the janitor

    /** A pass starts with the tick it was given, which may lie behind the clock. */
    method JanitorReadDirs(at: int)
      requires Valid() && janitor.Resting? && at <= now
      modifies this`janitor
      ensures Valid() && janitor == DirsRead(at, dirs.Keys)
    {
      hide IdsKnown, TasksCovered, InReach, ExpiringFree, RequestSound, RemovalsSafe, RemovalsKnown, OneEach, CancelsSound, RemovalsOwn;
      janitor := DirsRead(at, dirs.Keys);
    }

    method JanitorListTasks()
      requires Valid() && janitor.DirsRead?
      modifies this`janitor
      ensures Valid() && janitor.Settling? && janitor.at == old(janitor).at && janitor.entries == old(janitor).entries && janitor.active == map[]
      ensures forall t :: t in janitor.todo <==> t in tasks && tasks[t].active
      ensures forall t :: t in janitor.todo ==> janitor.todo[t] == tasks[t]
    {
      hide IdsKnown, TasksCovered, InReach, ExpiringFree, RequestSound, RemovalsSafe, RemovalsKnown, OneEach, CancelsSound, RemovalsOwn;
      janitor := Settling(janitor.at, janitor.entries, map t | t in tasks && tasks[t].active :: tasks[t], map[]);
    }

    /** One listed task: it shields its session, or it is overdue and is failed. If that cannot be saved
        the session is shielded a little longer. */
    method JanitorSettle(t: string, saved: bool)
      requires Valid() && janitor.Settling? && t in janitor.todo
      modifies this`janitor, this`tasks
      ensures Valid() && janitor.Settling? && janitor.at == old(janitor).at && janitor.todo == old(janitor).todo - {t}
      ensures var listed := old(janitor).todo[t];
              if listed.deadline > janitor.at then
                tasks == old(tasks) && janitor.active == old(janitor).active[listed.session := listed.deadline]
              else if saved then
                tasks == (if t in old(tasks) then old(tasks)[t := old(tasks)[t].(active := false)] else old(tasks)) && janitor.active == old(janitor).active
              else tasks == old(tasks) && janitor.active == old(janitor).active[listed.session := janitor.at + 60]
    {
      hide IdsKnown, TasksCovered, InReach, ExpiringFree, RequestSound, RemovalsSafe, RemovalsKnown, OneEach, CancelsSound, RemovalsOwn;
      var listed := janitor.todo[t];
      var todo := janitor.todo - {t};
      if listed.deadline > janitor.at {
        janitor := Settling(janitor.at, janitor.entries, todo, janitor.active[listed.session := listed.deadline]);
      } else if saved {
        if t in tasks {
          Progress(tasks[t := tasks[t].(active := false)]);
        }
        janitor := Settling(janitor.at, janitor.entries, todo, janitor.active);
      } else {
        janitor := Settling(janitor.at, janitor.entries, todo, janitor.active[listed.session := janitor.at + RETRY_MARGIN]);
      }
    }

    method JanitorSettled()
      requires Valid() && janitor.Settling? && janitor.todo == map[]
      modifies this`janitor
      ensures Valid() && janitor == Visiting(old(janitor).at, old(janitor).entries, old(janitor).active)
    {
      hide IdsKnown, TasksCovered, InReach, ExpiringFree, RequestSound, RemovalsSafe, RemovalsKnown, OneEach, CancelsSound, RemovalsOwn;
      janitor := Visiting(janitor.at, janitor.entries, janitor.active);
    }

    /** One directory, under the map's mutex. */
    method JanitorVisit(id: string)
      requires Valid() && janitor.Visiting? && id in janitor.entries
      modifies this`dirs, this`removals
      ensures Valid()
      ensures dirs == if !Shielded(janitor.active, id, janitor.at) && !(id in uploads && uploads[id].expiresAt > janitor.at)
                         && id in old(dirs) && old(dirs)[id] <= janitor.at - 900
                      then old(dirs) - {id} else old(dirs)
      ensures removals == old(removals) + (if dirs == old(dirs) then [] else [Removal(JanitorPass, id, false)])
    {
      hide RemovalsKnown, OneEach, CancelsSound, RemovalsOwn;
      var at := janitor.at;
      if Shielded(janitor.active, id, at) {
        return;
      }
      if id in uploads && uploads[id].expiresAt > at {
        return;
      }
      if id in dirs && dirs[id] <= at - UPLOAD_TTL {
        UnshieldedIsFree(id);
        RemoveDir(id, JanitorPass);
      }
    }

    /** What the janitor does not spare is owned by nobody, even if a task appeared after it listed them. */
    lemma UnshieldedIsFree(id: string)
      requires Valid() && janitor.Visiting? && id in dirs && !Shielded(janitor.active, id, janitor.at)
      requires id in uploads ==> uploads[id].expiresAt <= janitor.at
      ensures !Owned(tasks, now, id)
    {
    }

    /** A pass ends, at its end or because the directory or the tasks could not be listed. */
    method JanitorRests()
      requires Valid()
      modifies this`janitor
      ensures Valid() && janitor == Resting
    {
      hide IdsKnown, TasksCovered, InReach, ExpiringFree, RequestSound, RemovalsSafe, RemovalsKnown, OneEach, CancelsSound, RemovalsOwn;
      janitor := Resting;
    }

    // ------------------------------------------------------------ whole runs

    /** What each step does when its time has come. */
    twostate predicate Performed(a: Step)
      reads this
    {
      match a
      case DoTick(seconds) => now == old(now) + seconds
      case DoTaskEnds(t) => tasks == Ended(old(tasks), t)
      case DoExecutorClaims(t) =>
        t in old(tasks) && old(tasks)[t].active && old(tasks)[t].queued ==> tasks == old(tasks)[t := old(tasks)[t].(queued := false)]
      case DoExecutorRemoves(t) => t in old(tasks) && !old(tasks)[t].queued ==> dirs == old(dirs) - {old(tasks)[t].session}
      case DoCancel(k, t, saved) => CancelPerformed(k, t, saved)
      case DoRestart => uploads == map[] && request == Idle && janitor == Resting && cancels == map[] && dirs == old(dirs) && tasks == old(tasks)
      case DoUploadDir(id) => id !in old(used) ==> dirs == old(dirs)[id := old(now)] && id in uploading
      case DoUploadRegister(id, expiresAt, ttl) => id in old(uploading) ==> id in uploads && uploads[id] == Upload(expiresAt, ttl) && (id, expiresAt) in timers
      case DoLazyCleanup => dirs == old(dirs) - Overdue(old(uploads), old(now)) && uploads.Keys == old(uploads).Keys - Overdue(old(uploads), old(now))
      case DoTimerFires(id, at) =>
        (id, at) in old(timers) && at <= old(now) && id in Overdue(old(uploads), old(now)) ==> uploads == old(uploads) - {id} && id in expiring
      case DoTimerRemoves(id) => id in old(expiring) ==> dirs == old(dirs) - {id} && id !in expiring
      case DoRequest(r) => RequestPerformed(r)
      case _ => JanitorPerformed(a)
    }

    twostate predicate JanitorPerformed(a: Step)
      reads this
    {
      match a
      case DoJanitorReadDirs(at) => old(janitor).Resting? && at <= old(now) ==> janitor == DirsRead(at, old(dirs).Keys)
      case DoJanitorListTasks => old(janitor).DirsRead? ==> janitor.Settling? && forall t :: t in janitor.todo <==> t in old(tasks) && old(tasks)[t].active
      case DoJanitorSettle(t, _) => old(janitor).Settling? && t in old(janitor).todo ==> janitor.Settling? && janitor.todo == old(janitor).todo - {t}
      case DoJanitorSettled => old(janitor).Settling? && old(janitor).todo == map[] ==> janitor.Visiting? && janitor.active == old(janitor).active
      case DoJanitorVisit(id) =>
        old(janitor).Visiting? && id in old(janitor).entries ==>
          !Shielded(old(janitor).active, id, old(janitor).at) && id !in old(uploads) && id in old(dirs) && old(dirs)[id] <= old(janitor).at - 900 ==>
            dirs == old(dirs) - {id}
      case DoJanitorRests => janitor == Resting
      case _ => true
    }

    twostate predicate CancelPerformed(k: nat, t: string, saved: bool)
      reads this
    {
      if k !in old(cancels) then
        t in old(tasks) && old(tasks)[t].active && old(tasks)[t].queued ==> k in cancels && cancels[k] == Cancel(t, Looked)
      else
        match old(cancels)[k].stage
        case Looked => saved ==> tasks == Ended(old(tasks), old(cancels)[k].task) && k in cancels && cancels[k] == Cancel(old(cancels)[k].task, Marked)
        case Marked => k in cancels && cancels[k].stage.Unlisted?
        case Unlisted(found) => k !in cancels
    }

    /** Requests go their way: start extends, writes, creates and launches, or undoes; delete looks, checks,
        forgets and removes. */
    twostate predicate RequestPerformed(r: RequestStep)
      reads this
    {
      match old(request)
      case Idle =>
        if r.deleting then r.ok && r.session in old(uploads) ==> request == DeleteLooked(r.session)
        else r.ok && r.session in old(uploads) && old(uploads)[r.session].expiresAt > old(now) ==>
               request == StartExtended(r.session, old(now) + old(uploads)[r.session].ttl) && Covers(uploads, r.session, request.deadline)
      case StartExtended(x, deadline) => request == Idle || request == StartWritten(x, deadline)
      case StartWritten(x, deadline) =>
        r.ok && r.task !in old(tasks) ==> request == StartCreated(x, r.task) && tasks == old(tasks)[r.task := Task(x, true, deadline, true)]
      case StartCreated(x, t) => if r.ok then request == Idle && dirs == old(dirs) else request == StartAborting(x, t) && dirs == old(dirs) - {x}
      case StartAborting(x, t) => request == StartForgotten(x, t) && uploads == old(uploads) - {x}
      case StartForgotten(x, t) => request == Idle && (r.ok ==> tasks == Ended(old(tasks), t))
      case DeleteLooked(x) => request == Idle || request == DeleteChecked(x)
      case DeleteChecked(x) => request == DeleteForgotten(x) && uploads == old(uploads) - {x}
      case DeleteForgotten(x) => request == Idle && dirs == old(dirs) - {x}
    }

    /** One step of a run; a step whose time has not come is skipped. */
    method Perform(a: Step)
      requires Valid()
      modifies this
      ensures Valid() && Performed(a)
    {
      hide IdsKnown, TasksCovered, InReach, ExpiringFree, RequestSound, JanitorSound, RemovalsSafe, RemovalsKnown, OneEach, CancelsSound, RemovalsOwn, LazilyRemoved;
      match a
      case DoTick(seconds) => Tick(seconds);
      case DoTaskEnds(t) => if t in tasks { TaskEnds(t); }
      case DoExecutorClaims(t) => if t in tasks && tasks[t].active && tasks[t].queued { ExecutorClaims(t); }
      case DoExecutorRemoves(t) => if t in tasks && !tasks[t].queued { ExecutorRemoves(t); }
      case DoCancel(k, t, saved) => PerformCancel(k, t, saved);
      case DoRestart => Restart();
      case DoUploadDir(id) => if id !in used { UploadDir(id); }
      case DoUploadRegister(id, expiresAt, ttl) => if id in uploading { LazyCleanup(); UploadRegister(id, expiresAt, ttl); }
      case DoLazyCleanup => LazyCleanup();
      case DoTimerFires(id, at) => if (id, at) in timers && at <= now { TimerFires(id, at); }
      case DoTimerRemoves(id) => if id in expiring { TimerRemoves(id); }
      case DoRequest(r) => PerformRequest(r);
      case _ => PerformJanitor(a);
    }

    method PerformJanitor(a: Step)
      requires Valid()
      modifies this
      ensures Valid() && JanitorPerformed(a)
    {
      hide IdsKnown, TasksCovered, InReach, ExpiringFree, RequestSound, JanitorSound, RemovalsSafe, RemovalsKnown, OneEach, CancelsSound, RemovalsOwn, LazilyRemoved;
      match a
      case DoJanitorReadDirs(at) => if janitor.Resting? && at <= now { JanitorReadDirs(at); }
      case DoJanitorListTasks => if janitor.DirsRead? { JanitorListTasks(); }
      case DoJanitorSettle(t, saved) => if janitor.Settling? && t in janitor.todo { JanitorSettle(t, saved); }
      case DoJanitorSettled => if janitor.Settling? && janitor.todo == map[] { JanitorSettled(); }
      case DoJanitorVisit(id) => if janitor.Visiting? && id in janitor.entries { JanitorVisit(id); }
      case DoJanitorRests => JanitorRests();
      case _ =>
    }

    /** The next step of a cancel request, or the first of a new one. */
    method PerformCancel(k: nat, t: string, saved: bool)
      requires Valid()
      modifies this
      ensures Valid() && CancelPerformed(k, t, saved)
    {
      hide IdsKnown, TasksCovered, InReach, ExpiringFree, RequestSound, JanitorSound, RemovalsSafe, RemovalsKnown, OneEach, RemovalsOwn, LazilyRemoved;
      if k !in cancels {
        if t in tasks && tasks[t].active && tasks[t].queued {
          CancelLook(k, t);
        }
      } else {
        match cancels[k].stage
        case Looked => CancelMark(k, saved);
        case Marked => CancelUnlist(k);
        case Unlisted(_) => CancelRemove(k);
      }
    }

    /** The next step of whoever holds the request mutex, or of whoever takes it. */
    method PerformRequest(r: RequestStep)
      requires Valid()
      modifies this
      ensures Valid() && RequestPerformed(r)
    {
      hide IdsKnown, TasksCovered, InReach, ExpiringFree, RequestSound, JanitorSound, RemovalsSafe, RemovalsKnown, OneEach, CancelsSound, RemovalsOwn;
      match request
      case Idle =>
        if r.deleting {
          DeleteBegin(r.session, r.ok);
        } else {
          StartBegin(r.session, r.ok);
        }
      case StartExtended(_, _) => StartWrite(r.ok);
      case StartWritten(_, _) => if r.task !in tasks { StartCreate(r.task, r.ok); }
      case StartCreated(_, _) => StartLaunch(r.ok);
      case StartAborting(_, _) => StartForget();
      case StartForgotten(_, _) => StartFail(r.ok);
      case DeleteLooked(_) => DeleteCheck(r.ok);
      case DeleteChecked(_) => DeleteForget();
      case DeleteForgotten(_) => DeleteRemove();
    }

    /** In every interleaving of uploads, starts, deletes, cancels, lazy cleanups, timers, janitor passes,
        executor steps, task ends and restarts, no directory is removed by timer, lazy cleanup, janitor,
        delete or cancel while an active registration task with time left owns it. A directory that is
        removed under its owner is removed on its own account, by the executor or by the start handler, and
        was that of a task. No directory disappears unrecorded. */
    method Run(steps: seq<Step>)
      requires Valid()
      modifies this
      ensures Valid()
      ensures forall r <- removals :: r.owned ==> (r.who.StartFailure? || r.who.Executor?) && Taken(tasks, r.session)
      ensures forall x :: x in used && x !in dirs ==> exists r <- removals :: r.session == x
    {
      hide IdsKnown, TasksCovered, InReach, ExpiringFree, RequestSound, JanitorSound, OneEach, CancelsSound, Taken;
      for i := 0 to |steps|
        invariant Valid()
      {
        Perform(steps[i]);
      }
    }
  }

  /** The exemption is needed: from upload to the end of the installer, the executor removes the directory
      while its task is active and its credentials have not expired. */
  method ExecutorRemovesUnderOwner(id: string, t: string, ttl: nat) returns (s: Sessions)
    requires ttl > 0
    ensures fresh(s) && s.Valid() && t in s.tasks && s.tasks[t].active && s.tasks[t].deadline > s.now
    ensures s.removals != [] && s.removals[|s.removals| - 1] == Removal(Executor, id, true)
  {
    hide IdsKnown, TasksCovered, InReach, ExpiringFree, RequestSound, JanitorSound, OneEach, CancelsSound, RemovalsOwn, RemovalsKnown;
    s := StartedSession(id, t, ttl);
    s.ExecutorClaims(t);
    assert Owner(s.tasks, s.now, t);
    s.ExecutorRemoves(t);
  }

  /** A session from its upload to the launch of its executor. */
  method StartedSession(id: string, t: string, ttl: nat) returns (s: Sessions)
    ensures fresh(s) && s.Valid() && s.request == Idle && id in s.dirs
    ensures s.tasks == map[t := Task(id, true, s.now + ttl, true)]
  {
    hide IdsKnown, TasksCovered, InReach, ExpiringFree, RequestSound, JanitorSound, OneEach, CancelsSound, RemovalsOwn, RemovalsKnown, LazilyRemoved, Owned, Taken;
    s := new Sessions();
    s.UploadDir(id);
    s.UploadRegister(id, s.now + UPLOAD_TTL, ttl);
    assert id !in Overdue(s.uploads, s.now);
    s.StartBegin(id, true);
    assert id in s.dirs;
    s.StartWrite(true);
    s.StartCreate(t, true);
    s.StartLaunch(true);
  }

  datatype RequestStep = RequestStep(deleting: bool, session: string, ok: bool, task: string)

  datatype Step =
    | DoTick(seconds: nat)
    | DoTaskEnds(task: string)
    | DoExecutorClaims(task: string)
    | DoExecutorRemoves(task: string)
    | DoCancel(cancel: nat, task: string, saved: bool)
    | DoRestart
    | DoUploadDir(id: string)
    | DoUploadRegister(id: string, expiresAt: int, ttl: nat)
    | DoLazyCleanup
    | DoTimerFires(id: string, at: int)
    | DoTimerRemoves(id: string)
    | DoJanitorReadDirs(at: int)
    | DoJanitorListTasks
    | DoJanitorSettle(task: string, saved: bool)
    | DoJanitorSettled
    | DoJanitorVisit(id: string)
    | DoJanitorRests
    | DoRequest(request: RequestStep)
}
