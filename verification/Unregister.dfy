/** Unregistering a cluster: the precheck that decides whether a task is created, the removal of the
    cluster's protection relationships with partial failure and retry, and the workflow that cleans
    object storage, removes relationships and sends the uninstall command, across crashes. */
module Unregister {
  import opened Text

  // ---------------------------------------------------------------- protection relationships

  datatype Plan = Plan(id: string, source: string, target: string, repository: string)

  type Plans = map<string, Plan>

  /** What unregistering a cluster leaves of the plans: its own are gone, those it was only the target of
      lose their target, all others are untouched. */
  function Cleaned(plans: Plans, cluster: string): Plans {
    map id | id in plans && plans[id].source != cluster ::
      if plans[id].target == cluster then plans[id].(target := "") else plans[id]
  }

  /** One plan's part of the cleanup. */
  function CleanOne(plans: Plans, p: Plan, cluster: string): Plans {
    if p.source == cluster then plans - {p.id}
    else if p.target == cluster && p.id in plans then plans[p.id := plans[p.id].(target := "")]
    else plans
  }

  /** The cleanup of one plan brings the store nearer to the same end. */
  lemma CleanOneOnTheWay(plans: Plans, p: Plan, cluster: string)
    requires p.id in plans && plans[p.id] == p
    ensures Cleaned(CleanOne(plans, p, cluster), cluster) == Cleaned(plans, cluster)
  {
  }

  /** Nothing is left to clean exactly when no plan names the cluster. */
  lemma CleanedIff(plans: Plans, cluster: string)
    requires cluster != ""
    ensures Cleaned(plans, cluster) == plans <==> forall id :: id in plans ==> plans[id].source != cluster && plans[id].target != cluster
  {
    if Cleaned(plans, cluster) == plans {
      forall id | id in plans ensures plans[id].source != cluster && plans[id].target != cluster {
        assert id in Cleaned(plans, cluster);
      }
    }
  }

  /** The listing holds each stored plan once. */
  ghost predicate Lists(plans: Plans, listed: seq<Plan>) {
    && (forall i, j :: 0 <= i < j < |listed| ==> listed[i].id != listed[j].id)
    && (forall p <- listed :: p.id in plans && plans[p.id] == p)
    && (forall id :: id in plans ==> plans[id] in listed)
  }

  /** The listed plans after the first `k` were cleaned are as listed. */
  ghost predicate RestAsListed(plans: Plans, listed: seq<Plan>, k: nat, cluster: string)
    requires k <= |listed|
  {
    && (forall i :: k <= i < |listed| ==> listed[i].id in plans && plans[listed[i].id] == listed[i])
    && (forall id :: id in plans ==>
          (exists i :: k <= i < |listed| && listed[i].id == id) || (plans[id].source != cluster && plans[id].target != cluster))
  }

  class PlanStore {
    var plans: Plans

    constructor (initial: Plans)
      ensures plans == initial
    {
      plans := initial;
    }

    /** Every stored plan, in an order of the store's choosing. */
    method ListPlans() returns (listed: seq<Plan>)
      requires forall id :: id in plans ==> plans[id].id == id
      ensures Lists(plans, listed)
    {
      listed := [];
      var left := plans.Keys;
      while left != {}
        invariant left <= plans.Keys
        invariant forall i, j :: 0 <= i < j < |listed| ==> listed[i].id != listed[j].id
        invariant forall p <- listed :: p.id in plans && plans[p.id] == p && p.id !in left
        invariant forall id :: id in plans && id !in left ==> plans[id] in listed
        decreases left
      {
        var id :| id in left;
        listed, left := listed + [plans[id]], left - {id};
      }
    }

    /** `cleanupUnregisterProtectionRelationships`; the call for plan number `failAt` fails. However far
        it gets, the store is on the way to the same end, and it reports success only at that end. */
    method CleanupRelationships(cluster: string, listed: seq<Plan>, failAt: int) returns (done: bool)
      requires cluster != "" && Lists(plans, listed)
      requires forall id :: id in plans ==> plans[id].id == id
      modifies this
      ensures Cleaned(plans, cluster) == old(Cleaned(plans, cluster))
      ensures forall id :: id in plans ==> plans[id].id == id
      ensures done ==> plans == old(Cleaned(plans, cluster))
      ensures !done ==> 0 <= failAt < |listed|
    {
      hide Cleaned, CleanOne;
      for i := 0 to |listed|
        invariant Cleaned(plans, cluster) == old(Cleaned(plans, cluster))
        invariant RestAsListed(plans, listed, i, cluster)
        invariant forall id :: id in plans ==> plans[id].id == id
      {
        var p := listed[i];
        CleanNext(plans, listed, i, cluster);
        if p.source != cluster && p.target != cluster {
          continue;
        }
        if i == failAt {
          return false;
        }
        CleanOneOnTheWay(plans, p, cluster);
        plans := CleanOne(plans, p, cluster);
      }
      CleanedIff(plans, cluster);
      done := true;
    }

    /** A first attempt that fails anywhere and a second one on the plans listed afresh end where one
        uninterrupted attempt would have ended. */
    method CleanupAgain(cluster: string, failAt: int) returns (done: bool)
      requires cluster != "" && forall id :: id in plans ==> plans[id].id == id
      modifies this
      ensures done && plans == old(Cleaned(plans, cluster))
    {
      hide Cleaned;
      var listed := ListPlans();
      done := CleanupRelationships(cluster, listed, failAt);
      if !done {
        listed := ListPlans();
        done := CleanupRelationships(cluster, listed, -1);
      }
    }
  }

  lemma CleanNext(plans: Plans, listed: seq<Plan>, i: nat, cluster: string)
    requires i < |listed| && RestAsListed(plans, listed, i, cluster) && cluster != ""
    requires forall k, j :: 0 <= k < j < |listed| ==> listed[k].id != listed[j].id
    requires forall id :: id in plans ==> plans[id].id == id
    ensures listed[i].id in plans && plans[listed[i].id] == listed[i]
    ensures RestAsListed(CleanOne(plans, listed[i], cluster), listed, i + 1, cluster)
    ensures listed[i].source != cluster && listed[i].target != cluster ==> CleanOne(plans, listed[i], cluster) == plans
    ensures forall id :: id in CleanOne(plans, listed[i], cluster) ==> CleanOne(plans, listed[i], cluster)[id].id == id
  {
    var after := CleanOne(plans, listed[i], cluster);
    forall id | id in after
      ensures (exists k :: i + 1 <= k < |listed| && listed[k].id == id) || (after[id].source != cluster && after[id].target != cluster)
    {
      if id != listed[i].id {
        assert after[id] == plans[id];
        if k :| i <= k < |listed| && listed[k].id == id {
          assert k > i;
        }
      }
    }
  }

  // ---------------------------------------------------------------- the precheck

  datatype RestorePoint = RestorePoint(deleted: bool, repository: string)

  datatype ActiveTask = ActiveTask(kind: string, active: bool)

  datatype Stage = ActiveTasks | TargetInUse | ProtectedWithPoints | ConfiguredWithoutPoints | RegisteredWithoutDr

  datatype Audit = Audit(
    agentOnline: bool, sourcePlans: nat, targetPlans: nat, restorePoints: nat, repositories: seq<string>,
    activeTasks: nat, activeTypes: seq<string>, unregisterActive: bool, stage: Stage, blockers: nat)
  {
    predicate Allowed() { blockers == 0 }
    predicate StorageNeeded() { |repositories| > 0 }
  }

  function Count<T>(s: seq<T>, p: T -> bool): nat {
    if s == [] then 0 else Count(s[..|s| - 1], p) + if p(s[|s| - 1]) then 1 else 0
  }

  lemma CountNone<T>(p: T -> bool)
    ensures Count([], p) == 0
  {
  }

  lemma CountStep<T>(s: seq<T>, i: nat, p: T -> bool)
    requires i < |s|
    ensures Count(s[..i + 1], p) == Count(s[..i], p) + if p(s[i]) then 1 else 0
  {
    assert s[..i + 1][..i] == s[..i];
  }

  /** The distinct elements of a set, sorted. */
  method SortedSet(s: set<string>) returns (r: seq<string>)
    ensures Sorted(r) && multiset(r) == multiset(s)
    ensures forall x :: x in r <==> x in s
  {
    hide Sorted, SortStrings;
    var items: seq<string> := [];
    var left := s;
    while left != {}
      invariant left <= s && multiset(items) == multiset(s - left)
      decreases left
    {
      var x :| x in left;
      assert s - (left - {x}) == (s - left) + {x};
      items, left := items + [x], left - {x};
    }
    assert s - {} == s;
    r := SortStrings(items);
    forall x ensures x in r <==> x in s { assert x in multiset(r) <==> x in multiset(s); }
  }

  /** A repository the cluster has data in: named by one of its plans, bound to it, or holding one of its
      restore points. */
  ghost predicate Involved(repository: string, cluster: string, plans: seq<Plan>, bound: seq<string>, points: seq<RestorePoint>) {
    || (repository != "" && exists p <- plans :: p.source == cluster && p.repository == repository)
    || repository in bound
    || (repository != "" && exists q <- points :: !q.deleted && q.repository == repository)
  }

  /** The plans' part of the audit. */
  method AuditPlans(cluster: string, plans: seq<Plan>) returns (sources: nat, targets: nat, repositories: set<string>)
    ensures sources == Count(plans, (p: Plan) => p.source == cluster)
    ensures targets == Count(plans, (p: Plan) => p.target == cluster)
    ensures forall r :: r in repositories <==> r != "" && exists p <- plans :: p.source == cluster && p.repository == r
  {
    hide Count;
    sources, targets, repositories := 0, 0, {};
    CountNone((p: Plan) => p.source == cluster);
    CountNone((p: Plan) => p.target == cluster);
    for i := 0 to |plans|
      invariant sources == Count(plans[..i], (p: Plan) => p.source == cluster)
      invariant targets == Count(plans[..i], (p: Plan) => p.target == cluster)
      invariant forall r :: r in repositories <==> r != "" && exists k :: 0 <= k < i && plans[k].source == cluster && plans[k].repository == r
    {
      CountStep(plans, i, (p: Plan) => p.source == cluster);
      CountStep(plans, i, (p: Plan) => p.target == cluster);
      if plans[i].source == cluster {
        sources := sources + 1;
        if plans[i].repository != "" {
          repositories := repositories + {plans[i].repository};
        }
      }
      if plans[i].target == cluster {
        targets := targets + 1;
      }
    }
    assert plans[..|plans|] == plans;
  }

  method AuditPoints(points: seq<RestorePoint>) returns (n: nat, repositories: set<string>)
    ensures n == Count(points, (q: RestorePoint) => !q.deleted)
    ensures forall r :: r in repositories <==> r != "" && exists q <- points :: !q.deleted && q.repository == r
  {
    hide Count;
    n, repositories := 0, {};
    CountNone((q: RestorePoint) => !q.deleted);
    for i := 0 to |points|
      invariant n == Count(points[..i], (q: RestorePoint) => !q.deleted)
      invariant forall r :: r in repositories <==> r != "" && exists k :: 0 <= k < i && !points[k].deleted && points[k].repository == r
    {
      CountStep(points, i, (q: RestorePoint) => !q.deleted);
      if points[i].deleted {
        continue;
      }
      n := n + 1;
      if points[i].repository != "" {
        repositories := repositories + {points[i].repository};
      }
    }
    assert points[..|points|] == points;
  }

  predicate OtherActive(t: ActiveTask) {
    t.active && t.kind != "unregister"
  }

  method AuditTasks(tasks: seq<ActiveTask>) returns (n: nat, kinds: set<string>, unregistering: bool)
    ensures n == Count(tasks, OtherActive)
    ensures forall k :: k in kinds <==> exists t <- tasks :: OtherActive(t) && t.kind == k
    ensures unregistering <==> exists t <- tasks :: t.active && t.kind == "unregister"
  {
    hide Count;
    n, kinds, unregistering := 0, {}, false;
    CountNone(OtherActive);
    for i := 0 to |tasks|
      invariant n == Count(tasks[..i], OtherActive)
      invariant forall k :: k in kinds <==> exists j :: 0 <= j < i && OtherActive(tasks[j]) && tasks[j].kind == k
      invariant unregistering <==> exists j :: 0 <= j < i && tasks[j].active && tasks[j].kind == "unregister"
    {
      CountStep(tasks, i, OtherActive);
      if !tasks[i].active {
        continue;
      }
      if tasks[i].kind == "unregister" {
        unregistering := true;
      } else {
        n := n + 1;
        kinds := kinds + {tasks[i].kind};
      }
    }
    assert tasks[..|tasks|] == tasks;
  }

  /** `auditClusterUnregister` for a cluster that exists. `bound` are the repositories bound to it. */
  method AuditCluster(cluster: string, online: bool, plans: seq<Plan>, bound: seq<string>, points: seq<RestorePoint>, tasks: seq<ActiveTask>)
    returns (a: Audit)
    ensures a.agentOnline == online
    ensures a.sourcePlans == Count(plans, (p: Plan) => p.source == cluster)
    ensures a.targetPlans == Count(plans, (p: Plan) => p.target == cluster)
    ensures a.restorePoints == Count(points, (q: RestorePoint) => !q.deleted)
    ensures Sorted(a.repositories) && forall r :: r in a.repositories <==> Involved(r, cluster, plans, bound, points)
    ensures a.activeTasks == Count(tasks, OtherActive)
    ensures a.unregisterActive <==> exists t <- tasks :: t.active && t.kind == "unregister"
    ensures Sorted(a.activeTypes) && forall k :: k in a.activeTypes <==> exists t <- tasks :: OtherActive(t) && t.kind == k
    ensures a.Allowed() <==> online && a.activeTasks == 0 && !a.unregisterActive && a.targetPlans == 0
    ensures a.stage == if a.activeTasks > 0 then ActiveTasks else if a.targetPlans > 0 then TargetInUse
                       else if a.restorePoints > 0 then ProtectedWithPoints else if a.sourcePlans > 0 then ConfiguredWithoutPoints else RegisteredWithoutDr
  {
    hide Sorted, Count;
    var sources, targets, ids := AuditPlans(cluster, plans);
    var bindings: set<string> := set r | r in bound;
    var n, held := AuditPoints(points);
    var repositories := SortedSet(ids + bindings + held);
    var active, kinds, unregistering := AuditTasks(tasks);
    var types := SortedSet(kinds);
    var stage :=
      if active > 0 then ActiveTasks else if targets > 0 then TargetInUse
      else if n > 0 then ProtectedWithPoints else if sources > 0 then ConfiguredWithoutPoints else RegisteredWithoutDr;
    var blockers := 0;
    if unregistering { blockers := blockers + 1; }
    if !online { blockers := blockers + 1; }
    if active > 0 { blockers := blockers + 1; }
    if targets > 0 { blockers := blockers + 1; }
    a := Audit(online, sources, targets, n, repositories, active, types, unregistering, stage, blockers);
  }

  datatype Decision = Blocked | NeedsConsent | Create(cleanStorage: bool, cleanRelationships: bool)

  /** What `unregisterCluster` decides on an audit; `consent` is the user's choice to delete backup data. */
  function Decide(a: Audit, consent: bool): Decision {
    if !a.Allowed() && !(consent && a.agentOnline && a.activeTasks == 0 && !a.unregisterActive) then Blocked
    else if a.restorePoints > 0 && !consent then NeedsConsent
    else Create(a.StorageNeeded() && (a.restorePoints == 0 || consent), consent && (a.sourcePlans > 0 || a.targetPlans > 0))
  }

  /** The audit's own account of what blocks. */
  ghost predicate AuditSound(a: Audit) {
    a.Allowed() <==> a.agentOnline && a.activeTasks == 0 && !a.unregisterActive && a.targetPlans == 0
  }

  /** A task is created exactly when the audit saw the agent online, no other active task and no active
      unregister, and consent covers the restore points and the plans that use the cluster as target.
      Consent never overrides the operational blockers. Storage is cleaned whenever any is involved, and
      relationships exactly with consent and if there are any. Restore points alone ask for consent. */
  lemma CreatedIff(a: Audit, consent: bool)
    requires AuditSound(a)
    ensures Decide(a, consent).Create? <==>
            && a.agentOnline && a.activeTasks == 0 && !a.unregisterActive
            && (consent || (a.targetPlans == 0 && a.restorePoints == 0))
    ensures Decide(a, consent).Create? ==>
              && (Decide(a, consent).cleanStorage <==> |a.repositories| > 0)
              && (Decide(a, consent).cleanRelationships <==> consent && (a.sourcePlans > 0 || a.targetPlans > 0))
    ensures Decide(a, consent).NeedsConsent? <==>
            !consent && a.agentOnline && a.activeTasks == 0 && !a.unregisterActive && a.targetPlans == 0 && a.restorePoints > 0
  {
  }

  // ---------------------------------------------------------------- the workflow with object storage

  predicate Names(p: Plan, cluster: string) {
    p.source == cluster || p.target == cluster
  }

  /** What happened, in order: to the unregister task, and to the plans by it and by other requests. */
  datatype Event =
    | StorageCleaned | PlansListed | RelationshipRemoved(id: string) | RelationshipsRemoved | PreflightSaved | UninstallSent
    | PlanSaved(plan: Plan) | PlanDropped(id: string)

  /** Where the background worker stands. It exists in one process at a time and dies with it. */
  datatype Worker = NoWorker | Cleaning | Listing | Removing(left: seq<Plan>) | Saving | Sending

  /** The persisted unregister task of a cluster whose object storage must be cleaned, and the plans. A
      terminal task keeps its status; its payload flag can still be written. `sources` are the source
      clusters of all plans there ever were: an update cannot change them, and ids are not used twice. */
  datatype Workflow = Workflow(
    cluster: string, wantsRemoval: bool, terminal: bool, preflightDone: bool,
    plans: Plans, sources: map<string, string>, worker: Worker, log: seq<Event>)

  datatype Step =
    /** Request, reconnect or restart hands the task to a worker. */
    | StartWorker
    /** The object-storage cleanup ends: it worked, or not, or the process is stopping. */
    | StorageEnds(ok: bool, stopping: bool)
    /** The plans are listed, in some order. */
    | ListPlans(listed: seq<Plan>)
    /** One store call of the relationship removal. */
    | RemoveNext(ok: bool)
    /** The preflight flag is written. */
    | SavePreflight(ok: bool)
    /** The worker sends the uninstall command, or leaves it to a later reconnect. */
    | Send(ok: bool)
    /** After a reconnect the task is dispatched from its stored record. */
    | Redispatch
    /** The agent reports the end of the task, or somebody cancels it. */
    | TaskEnds
    | Crash
    /** Another request creates a plan, or updates one. */
    | SavePlan(plan: Plan)
    /** Another request removes a plan. */
    | DropPlan(id: string)

  function Stop(w: Workflow): Workflow {
    w.(worker := NoWorker)
  }

  function Fail(w: Workflow): Workflow {
    w.(worker := NoWorker, terminal := true)
  }

  function Log(w: Workflow, e: Event): Workflow {
    w.(log := w.log + [e])
  }

  /** The store finds a row to delete, or a row whose target is still the cluster. */
  predicate Removable(plans: Plans, p: Plan, cluster: string) {
    p.id in plans && (p.source == cluster || plans[p.id].target == cluster)
  }

  predicate Savable(w: Workflow, p: Plan) {
    if p.id in w.plans then w.plans[p.id].source == p.source else p.id !in w.sources
  }

  /** The step the removal makes: past a plan that does not name the cluster, through the store call, or
      to the failure of the task when the call fails or the relationship changed meanwhile. */
  function RemoveFirst(w: Workflow, ok: bool): Workflow
    requires w.worker.Removing? && w.worker.left != []
  {
    var p, rest := w.worker.left[0], w.worker.left[1..];
    if !Names(p, w.cluster) then Removed(w, rest)
    else if !ok || !Removable(w.plans, p, w.cluster) then Fail(w)
    else Removed(Log(w, RelationshipRemoved(p.id)).(plans := CleanOne(w.plans, p, w.cluster)), rest)
  }

  /** Another request's write. */
  function ForeignStep(w: Workflow, s: Step): Workflow {
    match s
    case SavePlan(p) =>
      if Savable(w, p) then Log(w, PlanSaved(p)).(plans := w.plans[p.id := p], sources := w.sources[p.id := p.source]) else w
    case DropPlan(id) => if id in w.plans then Log(w, PlanDropped(id)).(plans := w.plans - {id}) else w
    case _ => w
  }

  /** One atomic step; a step that is not enabled changes nothing. */
  ghost function Next(w: Workflow, s: Step): Workflow {
    match s
    case StartWorker =>
      if w.worker.NoWorker? && !w.terminal && !w.preflightDone then w.(worker := Cleaning) else w
    case StorageEnds(ok, stopping) =>
      if !w.worker.Cleaning? then w
      else if stopping then Stop(w)
      else if !ok then Fail(w)
      else Log(w, StorageCleaned).(worker := if w.wantsRemoval then Listing else Saving)
    case ListPlans(listed) =>
      if w.worker.Listing? && Lists(w.plans, listed) then Removed(Log(w, PlansListed), listed) else w
    case RemoveNext(ok) => if w.worker.Removing? && w.worker.left != [] then RemoveFirst(w, ok) else w
    case SavePreflight(ok) =>
      if !w.worker.Saving? then w
      else if !ok then Stop(w)
      else if w.terminal then Stop(Log(w, PreflightSaved)).(preflightDone := true)
      else Log(w, PreflightSaved).(preflightDone := true, worker := Sending)
    case Send(ok) =>
      if !w.worker.Sending? then w
      else if ok && w.preflightDone then Stop(Log(w, UninstallSent))
      else Stop(w)
    case Redispatch => if w.preflightDone && !w.terminal then Log(w, UninstallSent) else w
    case TaskEnds => w.(terminal := true)
    case Crash => Stop(w)
    case _ => ForeignStep(w, s)
  }

  function Removed(w: Workflow, rest: seq<Plan>): Workflow {
    if rest == [] then Log(w, RelationshipsRemoved).(worker := Saving) else w.(worker := Removing(rest))
  }

  ghost function Run(w: Workflow, steps: seq<Step>): Workflow {
    if steps == [] then w else Next(Run(w, steps[..|steps| - 1]), steps[|steps| - 1])
  }

  // ---------------------------------------------------------------- what the log says

  /** Some event before position `n` is `e`. */
  ghost predicate Before(log: seq<Event>, n: int, e: Event) {
    exists j :: 0 <= j < n && j < |log| && log[j] == e
  }

  /** What must have come before an event: relationships go only after storage was cleaned and the plans
      were listed, the flag is saved only after both, and the uninstall is sent only after the flag. */
  ghost predicate InOrder(log: seq<Event>, n: int, e: Event, wantsRemoval: bool) {
    match e
    case RelationshipRemoved(_) => Before(log, n, StorageCleaned)
    case RelationshipsRemoved => Before(log, n, StorageCleaned)
    case PreflightSaved => Before(log, n, StorageCleaned) && (wantsRemoval ==> Before(log, n, RelationshipsRemoved))
    case UninstallSent => Before(log, n, PreflightSaved)
    case _ => true
  }

  ghost predicate Ordered(log: seq<Event>, wantsRemoval: bool) {
    forall i :: 0 <= i < |log| ==> InOrder(log, i, log[i], wantsRemoval)
  }

  /** The plans if only the other requests' writes had happened. */
  function ForeignOnly(plans: Plans, log: seq<Event>): Plans {
    if log == [] then plans else ForeignAfter(ForeignOnly(plans, log[..|log| - 1]), log[|log| - 1])
  }

  function ForeignAfter(plans: Plans, e: Event): Plans {
    match e
    case PlanSaved(p) => plans[p.id := p]
    case PlanDropped(id) => plans - {id}
    case _ => plans
  }

  /** The plans other requests saved under the cluster's name after the last listing, and that nobody has
      written since. */
  function SavedSince(log: seq<Event>, cluster: string): set<string> {
    if log == [] then {} else SavedAfter(SavedSince(log[..|log| - 1], cluster), log[|log| - 1], cluster)
  }

  function SavedAfter(before: set<string>, e: Event, cluster: string): set<string> {
    match e
    case PlansListed => {}
    case PlanSaved(p) => if Names(p, cluster) then before + {p.id} else before - {p.id}
    case PlanDropped(id) => before - {id}
    case RelationshipRemoved(id) => before - {id}
    case _ => before
  }

  predicate Writes(e: Event, id: string) {
    match e
    case PlanSaved(p) => p.id == id
    case PlanDropped(other) => other == id
    case RelationshipRemoved(other) => other == id
    case _ => false
  }

  /** Event `i` saves the plan under the cluster's name, and after it the plan is neither listed nor written. */
  ghost predicate LastSave(log: seq<Event>, cluster: string, id: string, i: nat) {
    && i < |log| && log[i].PlanSaved? && log[i].plan.id == id && Names(log[i].plan, cluster)
    && forall j :: i < j < |log| ==> !Writes(log[j], id) && log[j] != PlansListed
  }

  lemma SavedSinceStep(log: seq<Event>, e: Event, cluster: string)
    ensures SavedSince(log + [e], cluster) == SavedAfter(SavedSince(log, cluster), e, cluster)
  {
    assert (log + [e])[..|log|] == log;
  }

  lemma ForeignStepOnly(plans: Plans, log: seq<Event>, e: Event)
    ensures ForeignOnly(plans, log + [e]) == ForeignAfter(ForeignOnly(plans, log), e)
  {
    assert (log + [e])[..|log|] == log;
  }

  /** SavedSince, said without recursion. */
  lemma {:induction false} SavedSinceIff(log: seq<Event>, cluster: string, id: string)
    ensures id in SavedSince(log, cluster) <==> exists i :: LastSave(log, cluster, id, i)
  {
    if log != [] {
      var n := |log| - 1;
      var init, e := log[..n], log[n];
      assert log == init + [e];
      SavedSinceIff(init, cluster, id);
      if id in SavedSince(log, cluster) {
        if e.PlanSaved? && e.plan.id == id {
          assert LastSave(log, cluster, id, n);
        } else {
          var i :| LastSave(init, cluster, id, i);
          assert LastSave(log, cluster, id, i);
        }
      }
      if i: nat :| LastSave(log, cluster, id, i) {
        if i < n { assert LastSave(init, cluster, id, i); }
      }
    }
  }

  // ---------------------------------------------------------------- the invariant

  ghost predicate IdsMatch(plans: Plans) {
    forall id :: id in plans ==> plans[id].id == id
  }

  ghost predicate SourceKnown(p: Plan, sources: map<string, string>) {
    p.id in sources && sources[p.id] == p.source
  }

  ghost predicate SourcesKnown(w: Workflow) {
    && (forall id :: id in w.plans ==> SourceKnown(w.plans[id], w.sources))
    && (w.worker.Removing? ==> forall p <- w.worker.left :: SourceKnown(p, w.sources))
  }

  /** The rest of the listing has this plan, under the cluster's name. */
  ghost predicate InRest(left: seq<Plan>, id: string, cluster: string) {
    exists k :: 0 <= k < |left| && left[k].id == id && Names(left[k], cluster)
  }

  /** Which plans name the cluster: those saved since the listing, those the removal has yet to come to,
      and none else once it is through. */
  ghost predicate NamedAreKnown(w: Workflow) {
    && (forall id :: id in SavedSince(w.log, w.cluster) ==> id in w.plans && Names(w.plans[id], w.cluster))
    && (w.worker.Removing? ==> forall id :: id in w.plans && Names(w.plans[id], w.cluster) ==>
          id in SavedSince(w.log, w.cluster) || InRest(w.worker.left, id, w.cluster))
    && (w.wantsRemoval && (w.worker.Saving? || w.preflightDone) ==>
          forall id :: id in w.plans && Names(w.plans[id], w.cluster) ==> id in SavedSince(w.log, w.cluster))
  }

  /** How far the worker has come shows in the log. */
  ghost predicate LogAgrees(w: Workflow) {
    && Ordered(w.log, w.wantsRemoval)
    && (w.worker.Listing? || w.worker.Removing? || w.worker.Saving? ==> Before(w.log, |w.log|, StorageCleaned) && !w.preflightDone)
    && (w.wantsRemoval && w.worker.Saving? ==> Before(w.log, |w.log|, RelationshipsRemoved))
    && (w.worker.Cleaning? ==> !w.preflightDone)
    && (w.preflightDone <==> Before(w.log, |w.log|, PreflightSaved))
  }

  /** The workflow's own writes leave it to the same end as if only the others had written, and it does
      not write before the storage is clean. */
  ghost predicate OwnWritesClean(w: Workflow, plans0: Plans) {
    && Cleaned(w.plans, w.cluster) == Cleaned(ForeignOnly(plans0, w.log), w.cluster)
    && (Before(w.log, |w.log|, StorageCleaned) || w.plans == ForeignOnly(plans0, w.log))
  }

  ghost predicate Inv(w: Workflow, plans0: Plans) {
    w.cluster != "" && IdsMatch(w.plans) && SourcesKnown(w) && NamedAreKnown(w) && LogAgrees(w) && OwnWritesClean(w, plans0)
  }

  lemma LogKeeps(log: seq<Event>, e: Event, f: Event)
    ensures Before(log, |log|, f) || e == f <==> Before(log + [e], |log| + 1, f)
  {
    if Before(log, |log|, f) {
      var j :| 0 <= j < |log| && log[j] == f;
      assert (log + [e])[j] == f;
    } else if e == f {
      assert (log + [e])[|log|] == f;
    }
  }

  lemma OrderedAppend(log: seq<Event>, e: Event, wantsRemoval: bool)
    requires Ordered(log, wantsRemoval) && InOrder(log, |log|, e, wantsRemoval)
    ensures Ordered(log + [e], wantsRemoval)
  {
    var all := log + [e];
    forall i, f | 0 <= i <= |log| && Before(log, i, f) ensures Before(all, i, f) {
      var j :| 0 <= j < i && j < |log| && log[j] == f;
      assert all[j] == f;
    }
    forall i | 0 <= i < |log| ensures all[i] == log[i] {}
  }

  /** What appending one event does to everything read from the log. */
  lemma LogStep(log: seq<Event>, e: Event, wantsRemoval: bool)
    requires Ordered(log, wantsRemoval) && InOrder(log, |log|, e, wantsRemoval)
    ensures Ordered(log + [e], wantsRemoval)
    ensures Before(log + [e], |log| + 1, StorageCleaned) <==> Before(log, |log|, StorageCleaned) || e == StorageCleaned
    ensures Before(log + [e], |log| + 1, RelationshipsRemoved) <==> Before(log, |log|, RelationshipsRemoved) || e == RelationshipsRemoved
    ensures Before(log + [e], |log| + 1, PreflightSaved) <==> Before(log, |log|, PreflightSaved) || e == PreflightSaved
  {
    hide Ordered, Before;
    OrderedAppend(log, e, wantsRemoval);
    LogKeeps(log, e, StorageCleaned);
    LogKeeps(log, e, RelationshipsRemoved);
    LogKeeps(log, e, PreflightSaved);
  }

  // ---------------------------------------------------------------- one step at a time

  lemma RemoveLogAgrees(w: Workflow, ok: bool)
    requires LogAgrees(w) && w.worker.Removing? && w.worker.left != []
    ensures LogAgrees(RemoveFirst(w, ok))
  {
    hide Ordered, Before, Removable, Names, CleanOne;
    var p := w.worker.left[0];
    LogStep(w.log, RelationshipsRemoved, w.wantsRemoval);
    LogStep(w.log, RelationshipRemoved(p.id), w.wantsRemoval);
    LogStep(w.log + [RelationshipRemoved(p.id)], RelationshipsRemoved, w.wantsRemoval);
  }

  lemma StepLogAgrees(w: Workflow, s: Step)
    requires LogAgrees(w)
    ensures LogAgrees(Next(w, s))
  {
    hide Ordered, Before, Lists, Savable, RemoveFirst;
    match s
    case StorageEnds(_, _) => LogStep(w.log, StorageCleaned, w.wantsRemoval);
    case ListPlans(listed) =>
      if w.worker.Listing? {
        LogStep(w.log, PlansListed, w.wantsRemoval);
        LogStep(w.log + [PlansListed], RelationshipsRemoved, w.wantsRemoval);
      }
    case RemoveNext(ok) =>
      if w.worker.Removing? && w.worker.left != [] { RemoveLogAgrees(w, ok); }
    case SavePreflight(_) => if w.worker.Saving? { LogStep(w.log, PreflightSaved, w.wantsRemoval); }
    case Send(_) => if w.preflightDone { LogStep(w.log, UninstallSent, w.wantsRemoval); }
    case Redispatch => if w.preflightDone { LogStep(w.log, UninstallSent, w.wantsRemoval); }
    case SavePlan(p) => LogStep(w.log, PlanSaved(p), w.wantsRemoval);
    case DropPlan(id) => LogStep(w.log, PlanDropped(id), w.wantsRemoval);
    case _ =>
  }

  /** The row the removal is about is cleaned: the row's source is the listed one. */
  lemma CleanListed(plans: Plans, p: Plan, cluster: string)
    requires cluster != "" && IdsMatch(plans) && Names(p, cluster) && Removable(plans, p, cluster) && plans[p.id].source == p.source
    ensures var after := CleanOne(plans, p, cluster);
            && IdsMatch(after) && Cleaned(after, cluster) == Cleaned(plans, cluster)
            && (p.id in after ==> !Names(after[p.id], cluster) && after[p.id].source == p.source)
            && (forall id :: id != p.id ==> (id in after <==> id in plans) && (id in plans ==> after[id] == plans[id]))
  {
    assert CleanOne(plans, p, cluster) == CleanOne(plans, plans[p.id], cluster);
    CleanOneOnTheWay(plans, plans[p.id], cluster);
  }

  lemma RemoveSources(w: Workflow, ok: bool)
    requires SourcesKnown(w) && IdsMatch(w.plans) && w.cluster != "" && w.worker.Removing? && w.worker.left != []
    ensures SourcesKnown(RemoveFirst(w, ok)) && IdsMatch(RemoveFirst(w, ok).plans)
  {
    hide Names, CleanOne, Removable, IdsMatch, SourceKnown;
    var p, rest := w.worker.left[0], w.worker.left[1..];
    assert p in w.worker.left && forall q <- rest :: q in w.worker.left;
    if Names(p, w.cluster) && Removable(w.plans, p, w.cluster) {
      CleanSources(w.plans, p, w.sources, w.cluster);
    }
  }

  lemma CleanSources(plans: Plans, p: Plan, sources: map<string, string>, cluster: string)
    requires Names(p, cluster) && Removable(plans, p, cluster) && SourceKnown(p, sources) && IdsMatch(plans) && cluster != ""
    requires forall id :: id in plans ==> SourceKnown(plans[id], sources)
    ensures IdsMatch(CleanOne(plans, p, cluster))
    ensures forall id :: id in CleanOne(plans, p, cluster) ==> SourceKnown(CleanOne(plans, p, cluster)[id], sources)
  {
    hide Names, Cleaned, CleanOne, Removable;
    SameSource(plans, p, sources, cluster);
    CleanListed(plans, p, cluster);
  }

  lemma SameSource(plans: Plans, p: Plan, sources: map<string, string>, cluster: string)
    requires Removable(plans, p, cluster) && SourceKnown(p, sources) && IdsMatch(plans)
    requires forall id :: id in plans ==> SourceKnown(plans[id], sources)
    ensures plans[p.id].source == p.source
  {
  }

  lemma ForeignSources(w: Workflow, s: Step)
    requires SourcesKnown(w) && IdsMatch(w.plans)
    ensures SourcesKnown(ForeignStep(w, s)) && IdsMatch(ForeignStep(w, s).plans)
  {
    match s
    case SavePlan(p) =>
      if w.worker.Removing? && Savable(w, p) && p.id in w.sources {
        assert p.id in w.plans && SourceKnown(w.plans[p.id], w.sources);
      }
    case _ =>
  }

  lemma StepSources(w: Workflow, s: Step)
    requires SourcesKnown(w) && IdsMatch(w.plans) && w.cluster != ""
    ensures SourcesKnown(Next(w, s)) && IdsMatch(Next(w, s).plans)
  {
    hide RemoveFirst, ForeignStep, IdsMatch;
    match s
    case RemoveNext(ok) => if w.worker.Removing? && w.worker.left != [] { RemoveSources(w, ok); }
    case SavePlan(_) => ForeignSources(w, s);
    case DropPlan(_) => ForeignSources(w, s);
    case _ =>
  }

  /** Another request's write changes the plans and the record of saved ones alike. */
  lemma ForeignNamed(w: Workflow, s: Step)
    requires NamedAreKnown(w) && SourcesKnown(w)
    ensures NamedAreKnown(ForeignStep(w, s))
  {
    hide SavedSince, Names, InRest, SourcesKnown;
    match s
    case SavePlan(p) => SavedSinceStep(w.log, PlanSaved(p), w.cluster);
    case DropPlan(id) => SavedSinceStep(w.log, PlanDropped(id), w.cluster);
    case _ =>
  }

  lemma DropFirst(left: seq<Plan>, id: string, cluster: string)
    requires left != [] && InRest(left, id, cluster) && !(left[0].id == id && Names(left[0], cluster))
    ensures InRest(left[1..], id, cluster)
  {
    var k :| 0 <= k < |left| && left[k].id == id && Names(left[k], cluster);
    assert left[1..][k - 1] == left[k];
  }

  /** Moving on to the rest of the listing, or past its end. */
  lemma RemovedNamed(w: Workflow, rest: seq<Plan>)
    requires !w.preflightDone
    requires forall id :: id in SavedSince(w.log, w.cluster) ==> id in w.plans && Names(w.plans[id], w.cluster)
    requires forall id :: id in w.plans && Names(w.plans[id], w.cluster) ==> id in SavedSince(w.log, w.cluster) || InRest(rest, id, w.cluster)
    ensures NamedAreKnown(Removed(w, rest))
  {
    hide SavedSince, Names;
    if rest == [] { SavedSinceStep(w.log, RelationshipsRemoved, w.cluster); }
  }

  lemma RemoveNamed(w: Workflow, ok: bool)
    requires NamedAreKnown(w) && SourcesKnown(w) && IdsMatch(w.plans) && w.cluster != "" && w.worker.Removing? && w.worker.left != [] && !w.preflightDone
    ensures NamedAreKnown(RemoveFirst(w, ok))
  {
    hide SavedSince, InRest, CleanOne;
    var p, rest := w.worker.left[0], w.worker.left[1..];
    assert p in w.worker.left;
    forall id | id in w.plans && Names(w.plans[id], w.cluster) && id !in SavedSince(w.log, w.cluster) && !(p.id == id && Names(p, w.cluster))
      ensures InRest(rest, id, w.cluster)
    {
      DropFirst(w.worker.left, id, w.cluster);
    }
    if !Names(p, w.cluster) {
      RemovedNamed(w, rest);
    } else if ok && Removable(w.plans, p, w.cluster) {
      CleanListed(w.plans, p, w.cluster);
      SavedSinceStep(w.log, RelationshipRemoved(p.id), w.cluster);
      RemovedNamed(Log(w, RelationshipRemoved(p.id)).(plans := CleanOne(w.plans, p, w.cluster)), rest);
    }
  }

  lemma ListNamed(w: Workflow, listed: seq<Plan>)
    requires IdsMatch(w.plans) && Lists(w.plans, listed) && !w.preflightDone
    ensures NamedAreKnown(Removed(Log(w, PlansListed), listed))
  {
    hide SavedSince, Names;
    SavedSinceStep(w.log, PlansListed, w.cluster);
    forall id | id in w.plans && Names(w.plans[id], w.cluster) ensures InRest(listed, id, w.cluster) {
      var k :| 0 <= k < |listed| && listed[k] == w.plans[id];
      assert listed[k].id == id;
    }
    RemovedNamed(Log(w, PlansListed), listed);
  }

  lemma StepNamed(w: Workflow, s: Step)
    requires NamedAreKnown(w) && SourcesKnown(w) && IdsMatch(w.plans) && w.cluster != "" && LogAgrees(w)
    ensures NamedAreKnown(Next(w, s))
  {
    hide SavedSince, Names, InRest, Ordered, SourcesKnown, IdsMatch, Lists, Removed, RemoveFirst, ForeignStep;
    match s
    case StorageEnds(_, _) => SavedSinceStep(w.log, StorageCleaned, w.cluster);
    case ListPlans(listed) => if w.worker.Listing? && Lists(w.plans, listed) { ListNamed(w, listed); }
    case RemoveNext(ok) => if w.worker.Removing? && w.worker.left != [] { RemoveNamed(w, ok); }
    case SavePreflight(_) => SavedSinceStep(w.log, PreflightSaved, w.cluster);
    case Send(_) => SavedSinceStep(w.log, UninstallSent, w.cluster);
    case Redispatch => SavedSinceStep(w.log, UninstallSent, w.cluster);
    case SavePlan(_) => ForeignNamed(w, s);
    case DropPlan(_) => ForeignNamed(w, s);
    case _ =>
  }

  lemma CleanedSave(a: Plans, b: Plans, p: Plan, cluster: string)
    requires Cleaned(a, cluster) == Cleaned(b, cluster)
    ensures Cleaned(a[p.id := p], cluster) == Cleaned(b[p.id := p], cluster)
  {
    var x, y := Cleaned(a[p.id := p], cluster), Cleaned(b[p.id := p], cluster);
    forall id | id != p.id ensures (id in x <==> id in y) && (id in x ==> x[id] == y[id]) {
      assert id in x <==> id in Cleaned(a, cluster);
      assert id in y <==> id in Cleaned(b, cluster);
      assert id in x ==> x[id] == Cleaned(a, cluster)[id];
      assert id in y ==> y[id] == Cleaned(b, cluster)[id];
    }
  }

  lemma CleanedDrop(a: Plans, b: Plans, k: string, cluster: string)
    requires Cleaned(a, cluster) == Cleaned(b, cluster)
    ensures Cleaned(a - {k}, cluster) == Cleaned(b - {k}, cluster)
  {
    assert Cleaned(a - {k}, cluster) == Cleaned(a, cluster) - {k};
    assert Cleaned(b - {k}, cluster) == Cleaned(b, cluster) - {k};
  }

  /** Appending an event that is not another request's write. */
  lemma OwnEvent(w: Workflow, e: Event, plans0: Plans)
    requires OwnWritesClean(w, plans0) && !e.PlanSaved? && !e.PlanDropped?
    ensures OwnWritesClean(Log(w, e), plans0)
  {
    hide Cleaned, Before;
    ForeignStepOnly(plans0, w.log, e);
    LogKeeps(w.log, e, StorageCleaned);
  }

  lemma OwnRemoval(w: Workflow, p: Plan, plans0: Plans)
    requires OwnWritesClean(w, plans0) && Before(w.log, |w.log|, StorageCleaned)
    requires w.cluster != "" && IdsMatch(w.plans) && Names(p, w.cluster) && Removable(w.plans, p, w.cluster) && w.plans[p.id].source == p.source
    ensures OwnWritesClean(Log(w, RelationshipRemoved(p.id)).(plans := CleanOne(w.plans, p, w.cluster)), plans0)
  {
    hide Cleaned, Before, CleanOne, Names, Removable;
    CleanListed(w.plans, p, w.cluster);
    ForeignStepOnly(plans0, w.log, RelationshipRemoved(p.id));
    LogKeeps(w.log, RelationshipRemoved(p.id), StorageCleaned);
  }

  lemma OwnForeign(w: Workflow, s: Step, plans0: Plans)
    requires OwnWritesClean(w, plans0)
    ensures OwnWritesClean(ForeignStep(w, s), plans0)
  {
    hide Cleaned, Before, Savable;
    match s
    case SavePlan(p) =>
      CleanedSave(w.plans, ForeignOnly(plans0, w.log), p, w.cluster);
      ForeignStepOnly(plans0, w.log, PlanSaved(p));
      LogKeeps(w.log, PlanSaved(p), StorageCleaned);
    case DropPlan(id) =>
      CleanedDrop(w.plans, ForeignOnly(plans0, w.log), id, w.cluster);
      ForeignStepOnly(plans0, w.log, PlanDropped(id));
      LogKeeps(w.log, PlanDropped(id), StorageCleaned);
    case _ =>
  }

  lemma StepOwnRemove(w: Workflow, ok: bool, plans0: Plans)
    requires Inv(w, plans0) && w.worker.Removing? && w.worker.left != []
    ensures OwnWritesClean(RemoveFirst(w, ok), plans0)
  {
    hide Cleaned, Before, Ordered, NamedAreKnown, CleanOne, IdsMatch, Names, ForeignOnly;
    var p := w.worker.left[0];
    assert p in w.worker.left;
    OwnEvent(w, RelationshipsRemoved, plans0);
    if Names(p, w.cluster) && Removable(w.plans, p, w.cluster) {
      assert w.plans[p.id].id == p.id by { IdAt(w.plans, p.id); }
      OwnRemoval(w, p, plans0);
      OwnEvent(Log(w, RelationshipRemoved(p.id)).(plans := CleanOne(w.plans, p, w.cluster)), RelationshipsRemoved, plans0);
    }
  }

  lemma IdAt(plans: Plans, id: string)
    requires IdsMatch(plans) && id in plans
    ensures plans[id].id == id
  {
  }

  lemma StepOwn(w: Workflow, s: Step, plans0: Plans)
    requires Inv(w, plans0)
    ensures OwnWritesClean(Next(w, s), plans0)
  {
    hide Cleaned, Before, Ordered, NamedAreKnown, Lists, CleanOne, ForeignStep, IdsMatch, Names, Removable, ForeignOnly;
    match s
    case StorageEnds(_, _) => OwnEvent(w, StorageCleaned, plans0);
    case ListPlans(listed) =>
      OwnEvent(w, PlansListed, plans0);
      OwnEvent(Log(w, PlansListed), RelationshipsRemoved, plans0);
    case RemoveNext(ok) => if w.worker.Removing? && w.worker.left != [] { StepOwnRemove(w, ok, plans0); }
    case SavePreflight(_) => OwnEvent(w, PreflightSaved, plans0);
    case Send(_) => OwnEvent(w, UninstallSent, plans0);
    case Redispatch => OwnEvent(w, UninstallSent, plans0);
    case SavePlan(_) => OwnForeign(w, s, plans0);
    case DropPlan(_) => OwnForeign(w, s, plans0);
    case _ =>
  }

  lemma StepInv(w: Workflow, s: Step, plans0: Plans)
    requires Inv(w, plans0)
    ensures Inv(Next(w, s), plans0)
  {
    hide SourcesKnown, NamedAreKnown, LogAgrees, OwnWritesClean, IdsMatch, Next;
    SameTask(w, s);
    StepSources(w, s);
    StepNamed(w, s);
    StepLogAgrees(w, s);
    StepOwn(w, s, plans0);
  }

  lemma {:induction false} RunInv(w: Workflow, steps: seq<Step>)
    requires Inv(w, w.plans)
    ensures Inv(Run(w, steps), w.plans)
    ensures Run(w, steps).cluster == w.cluster && Run(w, steps).wantsRemoval == w.wantsRemoval
  {
    hide Inv, Next;
    if steps != [] {
      var n := |steps| - 1;
      RunInv(w, steps[..n]);
      SameTask(Run(w, steps[..n]), steps[n]);
      StepInv(Run(w, steps[..n]), steps[n], w.plans);
    }
  }

  lemma SameTask(w: Workflow, s: Step)
    ensures Next(w, s).cluster == w.cluster && Next(w, s).wantsRemoval == w.wantsRemoval
  {
    hide CleanOne, Lists, Names, Removable, Savable;
    match s
    case RemoveNext(_) =>
    case ListPlans(_) =>
    case StorageEnds(_, _) =>
    case _ =>
  }

  lemma CreatedInv(w: Workflow)
    requires Created(w)
    ensures Inv(w, w.plans)
  {
    hide Cleaned;
  }

  /** A freshly created task: nothing done, no worker. */
  ghost predicate Created(w: Workflow) {
    && w.cluster != "" && IdsMatch(w.plans) && SourcesKnown(w) && !w.preflightDone && w.worker == NoWorker && w.log == []
  }

  // ---------------------------------------------------------------- the promises

  /** In every run, with any failures, crashes, reconnects and other requests: relationships are removed
      only after the storage cleanup succeeded, and the uninstall is sent only after the preflight flag was
      persisted, which happens only after storage and, where wanted, all listed relationships were cleaned. */
  lemma WorkflowOrdered(w: Workflow, steps: seq<Step>)
    requires Created(w)
    ensures Ordered(Run(w, steps).log, w.wantsRemoval)
  {
    hide Run, Cleaned;
    CreatedInv(w);
    RunInv(w, steps);
  }

  /** Until the storage cleanup has succeeded once, the plans are exactly what the other requests made of
      them, so that a failed cleanup can be retried; and whatever happened since, finishing the removal
      would end in the plans it would have ended in had the workflow written nothing yet. */
  lemma PlansKeptForRetry(w: Workflow, steps: seq<Step>)
    requires Created(w)
    ensures var r := Run(w, steps);
            && (!Before(r.log, |r.log|, StorageCleaned) ==> r.plans == ForeignOnly(w.plans, r.log))
            && Cleaned(r.plans, w.cluster) == Cleaned(ForeignOnly(w.plans, r.log), w.cluster)
  {
    hide Run, Cleaned, Before;
    CreatedInv(w);
    RunInv(w, steps);
  }

  /** When the uninstall command is out and removal was wanted, a plan names the cluster exactly when
      another request saved it so after the listing and nobody has written it since. */
  lemma NamedAfterUninstall(w: Workflow, steps: seq<Step>, id: string)
    requires Created(w) && w.wantsRemoval && UninstallSent in Run(w, steps).log
    ensures var r := Run(w, steps);
            id in r.plans && Names(r.plans[id], w.cluster) <==> exists i :: LastSave(r.log, w.cluster, id, i)
  {
    hide Run, Cleaned, SavedSince, Names, LastSave;
    CreatedInv(w);
    RunInv(w, steps);
    var log := Run(w, steps).log;
    var i :| 0 <= i < |log| && log[i] == UninstallSent;
    assert InOrder(log, i, log[i], w.wantsRemoval);
    var j :| 0 <= j < i && log[j] == PreflightSaved;
    assert Before(log, |log|, PreflightSaved);
    SavedSinceIff(log, w.cluster, id);
  }

  /** So the cluster is free, and the plans are those of a full cleaning, if and only if no such save came
      in after the listing. */
  lemma UninstalledClusterIsFree(w: Workflow, steps: seq<Step>)
    requires Created(w) && w.wantsRemoval && UninstallSent in Run(w, steps).log
    ensures var r := Run(w, steps);
            r.plans == Cleaned(ForeignOnly(w.plans, r.log), w.cluster) <==> forall id, i :: !LastSave(r.log, w.cluster, id, i)
  {
    hide Run, Cleaned, SavedSince, LastSave;
    var r := Run(w, steps);
    PlansKeptForRetry(w, steps);
    CleanedIff(r.plans, w.cluster);
    if forall id, i :: !LastSave(r.log, w.cluster, id, i) {
      forall id | id in r.plans ensures !Names(r.plans[id], w.cluster) {
        NamedAfterUninstall(w, steps, id);
      }
    } else {
      var id: string, i: nat :| LastSave(r.log, w.cluster, id, i);
      NamedAfterUninstall(w, steps, id);
    }
  }

  // ---------------------------------------------------------------- from beginning to end

  /** The worker has removed the first `i` of the listed relationships, and nobody else has written a plan. */
  ghost predicate Midway(w: Workflow, plans0: Plans, listed: seq<Plan>, i: nat) {
    && i <= |listed| && w.cluster != "" && IdsMatch(w.plans) && !w.preflightDone
    && (forall k, j :: 0 <= k < j < |listed| ==> listed[k].id != listed[j].id)
    && RestAsListed(w.plans, listed, i, w.cluster) && Cleaned(w.plans, w.cluster) == Cleaned(plans0, w.cluster)
    && w.worker == if i < |listed| then Removing(listed[i..]) else Saving
  }

  lemma MidwayStep(w: Workflow, plans0: Plans, listed: seq<Plan>, i: nat)
    requires Midway(w, plans0, listed, i) && i < |listed|
    ensures Midway(Next(w, RemoveNext(true)), plans0, listed, i + 1) && Next(w, RemoveNext(true)).terminal == w.terminal
  {
    hide Cleaned, RestAsListed;
    var p := listed[i];
    assert listed[i..][0] == p && listed[i..][1..] == listed[i + 1..];
    CleanNext(w.plans, listed, i, w.cluster);
    CleanOneOnTheWay(w.plans, p, w.cluster);
  }

  lemma {:induction false} MidwayRun(w: Workflow, plans0: Plans, listed: seq<Plan>, n: nat)
    requires Midway(w, plans0, listed, 0) && n <= |listed|
    ensures var r := Run(w, seq(n, _ => RemoveNext(true)));
            Midway(r, plans0, listed, n) && r.terminal == w.terminal && r.cluster == w.cluster
  {
    hide Midway, Next;
    var steps := seq(n, _ => RemoveNext(true));
    if n > 0 {
      assert steps[..n - 1] == seq(n - 1, _ => RemoveNext(true));
      MidwayRun(w, plans0, listed, n - 1);
      var before := Run(w, steps[..n - 1]);
      MidwayStep(before, plans0, listed, n - 1);
      SameTask(before, RemoveNext(true));
    }
  }

  lemma MidwayEnds(w: Workflow, plans0: Plans, listed: seq<Plan>)
    requires Midway(w, plans0, listed, |listed|)
    ensures w.worker.Saving? && w.plans == Cleaned(plans0, w.cluster)
  {
    hide Cleaned;
    CleanedIff(w.plans, w.cluster);
  }

  lemma ListedMidway(w: Workflow, listed: seq<Plan>)
    requires w.worker.Listing? && w.cluster != "" && IdsMatch(w.plans) && !w.preflightDone && Lists(w.plans, listed)
    ensures Midway(Next(w, ListPlans(listed)), w.plans, listed, 0) && Next(w, ListPlans(listed)).terminal == w.terminal
  {
    hide Cleaned;
    forall id | id in w.plans ensures exists i :: 0 <= i < |listed| && listed[i].id == id {
      assert w.plans[id] in listed;
    }
    assert listed[0..] == listed;
  }

  /** Undisturbed, the workflow goes from its creation to the uninstall, whatever plans there are and in whatever
      order they are listed, and leaves the plans of a full cleaning. */
  lemma UndisturbedRunUninstalls(w: Workflow, listed: seq<Plan>) returns (steps: seq<Step>)
    requires Created(w) && w.wantsRemoval && !w.terminal && Lists(w.plans, listed)
    ensures var r := Run(w, steps); UninstallSent in r.log && r.plans == Cleaned(w.plans, w.cluster)
  {
    hide Next, Midway, Cleaned, Lists;
    var s1, s2, s3 := StartWorker, StorageEnds(true, false), ListPlans(listed);
    UpToTheListing(w);
    RunTwo(w, [], s1, s2);
    assert [] + [s1, s2] == [s1, s2];
    var w2 := Run(w, [s1, s2]);
    ListedMidway(w2, listed);
    assert [s1, s2, s3][..2] == [s1, s2];
    var w3 := Run(w, [s1, s2, s3]);
    SameTask(w2, s3);
    var removals := seq(|listed|, _ => RemoveNext(true));
    MidwayRun(w3, w.plans, listed, |listed|);
    RunAppend(w, [s1, s2, s3], removals);
    var w4 := Run(w, [s1, s2, s3] + removals);
    MidwayEnds(w4, w.plans, listed);
    SendAnyway(w4);
    steps := [s1, s2, s3] + removals + [SavePreflight(true), Send(true)];
    RunTwo(w, [s1, s2, s3] + removals, SavePreflight(true), Send(true));
  }

  lemma {:induction false} RunAppend(w: Workflow, a: seq<Step>, b: seq<Step>)
    ensures Run(w, a + b) == Run(Run(w, a), b)
    decreases |b|
  {
    hide Next;
    if b == [] {
      assert a + b == a;
    } else {
      assert (a + b)[..|a + b| - 1] == a + b[..|b| - 1];
      RunAppend(w, a, b[..|b| - 1]);
    }
  }

  /** The log went on without an uninstall. */
  ghost predicate NothingSent(before: seq<Event>, after: seq<Event>) {
    before <= after && forall i :: |before| <= i < |after| ==> after[i] != UninstallSent
  }

  lemma NothingSentOn(before: seq<Event>, mid: seq<Event>, after: seq<Event>)
    requires NothingSent(before, mid) && NothingSent(mid, after)
    ensures NothingSent(before, after)
  {
  }

  lemma OneNotSent(log: seq<Event>, e: Event)
    requires e != UninstallSent
    ensures NothingSent(log, log + [e]) && NothingSent(log, log)
  {
  }

  /** A task that is over, by failure or by cancellation, never sends the uninstall, unless the worker was just
      about to. */
  lemma {:induction false} OverNeverUninstalls(w: Workflow, steps: seq<Step>)
    requires w.terminal && !w.worker.Sending?
    ensures var r := Run(w, steps);
            r.terminal && !r.worker.Sending? && NothingSent(w.log, r.log)
  {
    hide Next, NothingSent;
    OneNotSent(w.log, StorageCleaned);
    if steps != [] {
      var before := Run(w, steps[..|steps| - 1]);
      OverNeverUninstalls(w, steps[..|steps| - 1]);
      OverStep(before, steps[|steps| - 1]);
      NothingSentOn(w.log, before.log, Run(w, steps).log);
    }
  }

  lemma OverStep(w: Workflow, s: Step)
    requires w.terminal && !w.worker.Sending?
    ensures var r := Next(w, s);
            r.terminal && !r.worker.Sending? && NothingSent(w.log, r.log)
  {
    hide Lists, RemoveFirst, ForeignStep;
    match s
    case RemoveNext(ok) => if w.worker.Removing? && w.worker.left != [] { OverRemove(w, ok); }
    case SavePlan(_) => OverForeign(w, s);
    case DropPlan(_) => OverForeign(w, s);
    case _ =>
  }

  lemma OverRemove(w: Workflow, ok: bool)
    requires w.terminal && w.worker.Removing? && w.worker.left != []
    ensures var r := RemoveFirst(w, ok);
            r.terminal && !r.worker.Sending? && NothingSent(w.log, r.log)
  {
    hide CleanOne, Names, Removable, NothingSent;
    var p := w.worker.left[0];
    var removed := w.log + [RelationshipRemoved(p.id)];
    OneNotSent(w.log, RelationshipRemoved(p.id));
    OneNotSent(w.log, RelationshipsRemoved);
    OneNotSent(removed, RelationshipsRemoved);
    NothingSentOn(w.log, removed, removed + [RelationshipsRemoved]);
  }

  lemma OverForeign(w: Workflow, s: Step)
    requires w.terminal && !w.worker.Sending?
    ensures var r := ForeignStep(w, s);
            r.terminal && !r.worker.Sending? && NothingSent(w.log, r.log)
  {
    hide Savable;
  }

  /** What the rest of the world does to the task: it ends, the process crashes or stops, a reconnected agent is
      sent the uninstall if the flag is saved; and other requests write the plans they name. */
  lemma WorldWrites(w: Workflow, p: Plan)
    ensures Next(w, TaskEnds) == w.(terminal := true) && Next(w, Crash) == w.(worker := NoWorker)
    ensures w.worker.Cleaning? ==> forall ok :: Next(w, StorageEnds(ok, true)) == w.(worker := NoWorker)
    ensures Next(w, Redispatch) == if w.preflightDone && !w.terminal then w.(log := w.log + [UninstallSent]) else w
    ensures (p.id in w.plans && w.plans[p.id].source == p.source) || (p.id !in w.plans && p.id !in w.sources) ==>
              && Next(w, SavePlan(p)).plans == w.plans[p.id := p] && Next(w, SavePlan(p)).log == w.log + [PlanSaved(p)]
    ensures p.id in w.plans ==> Next(w, DropPlan(p.id)).plans == w.plans - {p.id} && Next(w, DropPlan(p.id)).log == w.log + [PlanDropped(p.id)]
  {
  }

  /** What ends the task: a storage cleanup that fails, a relationship whose removal fails, and one that changed
      after it was listed. The plans stay as they are. */
  lemma FailuresEndTheTask(w: Workflow, ok: bool)
    ensures w.worker.Cleaning? ==> Next(w, StorageEnds(false, false)) == w.(worker := NoWorker, terminal := true)
    ensures w.worker.Removing? && w.worker.left != [] ==>
              var p := w.worker.left[0];
              (p.source == w.cluster && (!ok || p.id !in w.plans))
              || (p.source != w.cluster && p.target == w.cluster && (!ok || p.id !in w.plans || w.plans[p.id].target != w.cluster)) ==>
                Next(w, RemoveNext(ok)) == w.(worker := NoWorker, terminal := true)
  {
    hide CleanOne;
  }

  /** The condition is needed: for every cluster there is a run in which another request creates a plan for
      it after the plans were listed, and the uninstall goes out while the plan names the cluster. */
  lemma PlanSavedDuringUnregister(w: Workflow, p: Plan) returns (steps: seq<Step>)
    requires Created(w) && w.wantsRemoval && !w.terminal && w.plans == map[] && p.source == w.cluster && p.id !in w.sources
    ensures UninstallSent in Run(w, steps).log && p.id in Run(w, steps).plans && Run(w, steps).plans[p.id] == p
  {
    hide Next, Created;
    var s1, s2, s3 := StartWorker, StorageEnds(true, false), ListPlans([]);
    var s4, s5, s6 := SavePlan(p), SavePreflight(true), Send(true);
    steps := [s1, s2, s3, s4, s5, s6];
    RunTwo(w, [], s1, s2);
    RunTwo(w, [s1, s2], s3, s4);
    RunTwo(w, [s1, s2, s3, s4], s5, s6);
    assert [] + [s1, s2] == [s1, s2] && [s1, s2] + [s3, s4] == [s1, s2, s3, s4] && [s1, s2, s3, s4] + [s5, s6] == steps;
    UpToTheListing(w);
    SavedMeanwhile(Next(Next(w, s1), s2), p);
    SendAnyway(Next(Next(Next(Next(w, s1), s2), s3), s4));
  }

  lemma UpToTheListing(w: Workflow)
    requires Created(w) && w.wantsRemoval && !w.terminal
    ensures Next(Next(w, StartWorker), StorageEnds(true, false)) == w.(worker := Listing, log := [StorageCleaned])
  {
  }

  lemma SavedMeanwhile(w: Workflow, p: Plan)
    requires w.worker.Listing? && w.plans == map[] && p.id !in w.sources
    ensures var r := Next(Next(w, ListPlans([])), SavePlan(p));
            r.worker.Saving? && r.terminal == w.terminal && r.plans == map[p.id := p]
  {
    hide SavedSince;
    assert Lists(w.plans, []);
    var listed := Next(w, ListPlans([]));
    assert listed.worker.Saving? && listed.plans == map[] && listed.sources == w.sources && listed.terminal == w.terminal;
  }

  lemma SendAnyway(w: Workflow)
    requires w.worker.Saving? && !w.terminal
    ensures var r := Next(Next(w, SavePreflight(true)), Send(true)); UninstallSent in r.log && r.plans == w.plans
  {
    var saved := Next(w, SavePreflight(true));
    assert saved.worker.Sending? && saved.preflightDone && saved.plans == w.plans;
    var r := Next(saved, Send(true));
    assert r.log[|r.log| - 1] == UninstallSent;
  }

  lemma RunTwo(w: Workflow, steps: seq<Step>, s: Step, t: Step)
    ensures Run(w, steps + [s, t]) == Next(Next(Run(w, steps), s), t)
  {
    hide Next;
    assert (steps + [s, t])[..|steps| + 1] == steps + [s];
    assert (steps + [s])[..|steps|] == steps;
  }
}
