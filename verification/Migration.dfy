/** Community-to-enterprise migration on the source platform: freeze, backup, export, handover, rollback
    and commit requests as one state machine per session, handled one at a time and overlapping. */
module Migration {
  import opened Text

  datatype State = Prechecking | Frozen | BackedUp | Exporting | Handover | Committed | RolledBack | Expired

  /** What happened to a session, in order. */
  datatype Event = FreezeConfirmed | BackupCompleted | ExportStarted | HandoverStarted | RollbackRequested | CommitConfirmed | SessionExpired

  datatype Session = Session(state: State, frozen: bool, expiresAt: int, history: seq<Event>)

  predicate Final(s: State) {
    s.Committed? || s.RolledBack? || s.Expired?
  }

  // ---------------------------------------------------------------- ordered histories

  predicate StartsOver(e: Event) {
    e.FreezeConfirmed? || e.RollbackRequested? || e.SessionExpired?
  }

  /** The freeze at `f` is in force up to `n`: no later freeze, no rollback, no expiry. */
  ghost predicate InForce(h: seq<Event>, f: nat, n: nat) {
    f < n <= |h| && h[f].FreezeConfirmed? && forall k :: f < k < n ==> !StartsOver(h[k])
  }

  ghost predicate FrozenBy(h: seq<Event>, n: nat) {
    exists f: nat :: InForce(h, f, n)
  }

  ghost predicate BackedUpBy(h: seq<Event>, n: nat) {
    exists f: nat, b: nat :: InForce(h, f, n) && f < b < n <= |h| && h[b].BackupCompleted?
  }

  ghost predicate HandedOverBy(h: seq<Event>, n: nat) {
    exists f: nat, b: nat, o: nat :: InForce(h, f, n) && f < b < o < n <= |h| && h[b].BackupCompleted? && h[o].HandoverStarted?
  }

  /** Every commit follows a freeze, a later successful backup and a later handover start, with no
      rollback, expiry or new freeze since that freeze. */
  ghost predicate CommitsOrdered(h: seq<Event>) {
    forall c :: 0 <= c < |h| && h[c].CommitConfirmed? ==> HandedOverBy(h, c)
  }

  /** What the state says about the history, and that the freeze flag is on from frozen to committed. */
  ghost predicate Sound(s: Session) {
    && CommitsOrdered(s.history)
    && s.frozen == (s.state.Frozen? || s.state.BackedUp? || s.state.Exporting? || s.state.Handover? || s.state.Committed?)
    && var h, n := s.history, |s.history|;
    match s.state
    case Frozen => FrozenBy(h, n)
    case BackedUp => BackedUpBy(h, n)
    case Exporting => BackedUpBy(h, n)
    case Handover => HandedOverBy(h, n)
    case Committed => HandedOverBy(h, n)
    case _ => true
  }

  lemma InForceAppend(h: seq<Event>, e: Event, f: nat, n: nat)
    requires InForce(h, f, n)
    ensures InForce(h + [e], f, n)
    ensures n == |h| && !StartsOver(e) ==> InForce(h + [e], f, |h| + 1)
  {
  }

  lemma HandedOverAppend(h: seq<Event>, e: Event, n: nat)
    requires HandedOverBy(h, n)
    ensures HandedOverBy(h + [e], n)
    ensures n == |h| && !StartsOver(e) ==> HandedOverBy(h + [e], |h| + 1)
  {
    hide InForce;
    var f: nat, b: nat, o: nat :| InForce(h, f, n) && f < b < o < n <= |h| && h[b].BackupCompleted? && h[o].HandoverStarted?;
    InForceAppend(h, e, f, n);
    assert (h + [e])[b] == h[b] && (h + [e])[o] == h[o];
  }

  lemma Within(h: seq<Event>, f: nat, n: nat)
    requires InForce(h, f, n)
    ensures f < n <= |h|
  {
  }

  lemma BackedUpAppend(h: seq<Event>, e: Event)
    requires BackedUpBy(h, |h|) && !StartsOver(e)
    ensures BackedUpBy(h + [e], |h| + 1)
    ensures e.HandoverStarted? ==> HandedOverBy(h + [e], |h| + 1)
  {
    hide InForce;
    var f: nat, b: nat :| InForce(h, f, |h|) && f < b < |h| && h[b].BackupCompleted?;
    InForceAppend(h, e, f, |h|);
    assert (h + [e])[b] == h[b] && (h + [e])[|h|] == e;
  }

  lemma BackupAppend(h: seq<Event>)
    requires FrozenBy(h, |h|) || BackedUpBy(h, |h|)
    ensures BackedUpBy(h + [BackupCompleted], |h| + 1)
  {
    hide InForce;
    if f: nat :| InForce(h, f, |h|) {
      Within(h, f, |h|);
      InForceAppend(h, BackupCompleted, f, |h|);
      assert (h + [BackupCompleted])[|h|] == BackupCompleted;
    } else {
      BackedUpAppend(h, BackupCompleted);
    }
  }

  lemma FreezeAppend(h: seq<Event>)
    ensures FrozenBy(h + [FreezeConfirmed], |h| + 1)
  {
    assert InForce(h + [FreezeConfirmed], |h|, |h| + 1);
  }

  lemma CommitsAppend(h: seq<Event>, e: Event)
    requires CommitsOrdered(h) && (e.CommitConfirmed? ==> HandedOverBy(h, |h|))
    ensures CommitsOrdered(h + [e])
  {
    hide HandedOverBy;
    var all := h + [e];
    forall c | 0 <= c < |all| && all[c].CommitConfirmed? ensures HandedOverBy(all, c) {
      HandedOverAppend(h, e, c);
    }
  }

  /** A session after a recorded change. */
  function Record(s: Session, e: Event): Session {
    s.(state := Target(e), frozen := !e.RollbackRequested? && !e.SessionExpired?, history := s.history + [e])
  }

  /** The guards of the handlers, put together: which change is made in which state. */
  predicate Permitted(state: State, e: Event) {
    match e
    case BackupCompleted => state.Frozen? || state.BackedUp?
    case ExportStarted => state.BackedUp?
    case HandoverStarted => state.Exporting? || state.BackedUp?
    case CommitConfirmed => state.Handover?
    case SessionExpired => !Final(state)
    case _ => true
  }

  function Target(e: Event): State {
    match e
    case FreezeConfirmed => Frozen
    case BackupCompleted => BackedUp
    case ExportStarted => Exporting
    case HandoverStarted => Handover
    case RollbackRequested => RolledBack
    case CommitConfirmed => Committed
    case SessionExpired => Expired
  }

  /** Every permitted change keeps the history ordered and the flag in step. */
  lemma RecordSound(s: Session, e: Event)
    requires Sound(s) && Permitted(s.state, e)
    ensures Sound(Record(s, e))
  {
    hide FrozenBy, BackedUpBy, HandedOverBy, CommitsOrdered;
    CommitsAppend(s.history, e);
    match e
    case FreezeConfirmed => FreezeAppend(s.history);
    case BackupCompleted => BackupAppend(s.history);
    case ExportStarted => BackedUpAppend(s.history, e);
    case HandoverStarted => BackedUpAppend(s.history, e);
    case CommitConfirmed => HandedOverAppend(s.history, e, |s.history|);
    case _ =>
  }

  // ---------------------------------------------------------------- handover tokens

  predicate DistinctSeq(s: seq<string>) {
    forall i, j :: 0 <= i < j < |s| ==> s[i] != s[j]
  }

  function SetOf(s: seq<string>): set<string> {
    set x | x in s
  }

  lemma {:induction false} DistinctSize(s: seq<string>)
    requires DistinctSeq(s)
    ensures |SetOf(s)| == |s|
  {
    if s != [] {
      var n := |s| - 1;
      DistinctSize(s[..n]);
      assert s == s[..n] + [s[n]];
      assert SetOf(s) == SetOf(s[..n]) + {s[n]};
    }
  }

  lemma SubsetSameSize(a: set<string>, b: set<string>)
    requires a <= b && |a| == |b|
    ensures a == b
  {
    if x :| x in b && x !in a {
      assert a <= b - {x};
      SubsetSize(a, b - {x});
    }
  }

  lemma {:induction false} SubsetSize(a: set<string>, b: set<string>)
    requires a <= b
    ensures |a| <= |b|
  {
    if x :| x in a {
      SubsetSize(a - {x}, b - {x});
    }
  }

  /** As many tokens as clusters and one that is not blank for each cluster: the tokens are for exactly
      the clusters. */
  lemma TokensMatchClusters(clusters: seq<string>, tokens: map<string, string>)
    requires DistinctSeq(clusters) && |clusters| == |tokens| && forall c <- clusters :: c in tokens
    ensures tokens.Keys == SetOf(clusters)
  {
    DistinctSize(clusters);
    SubsetSameSize(SetOf(clusters), tokens.Keys);
  }

  // ---------------------------------------------------------------- the handlers

  datatype Answer = Done | Refused | Failed

  /** The state row is written and then an event row; the second can fail after the first was saved. */
  datatype Save = NotSaved | SavedOnly | SavedWithEvent

  datatype HandoverRequest = HandoverRequest(endpoint: string, tokens: map<string, string>, rollbackDeadline: int)

  datatype HandoverTask = HandoverTask(cluster: string, token: string)

  predicate HasToken(tokens: map<string, string>, c: string) {
    c in tokens && TrimSpace(tokens[c]) != ""
  }

  /** Every cluster has a token that is not blank and an agent online. */
  method EveryClusterReady(clusters: seq<string>, tokens: map<string, string>, online: set<string>) returns (ready: bool)
    ensures ready <==> forall c <- clusters :: HasToken(tokens, c) && c in online
  {
    hide HasToken;
    for i := 0 to |clusters|
      invariant forall k :: 0 <= k < i ==> HasToken(tokens, clusters[k]) && clusters[k] in online
    {
      if !HasToken(tokens, clusters[i]) {
        return false;
      }
      if clusters[i] !in online {
        return false;
      }
    }
    ready := true;
  }

  /** One task for each cluster with its token; stops where creation or dispatch fails. */
  method DispatchHandover(clusters: seq<string>, tokens: map<string, string>, failAt: int) returns (ok: bool, tasks: seq<HandoverTask>)
    requires forall c <- clusters :: c in tokens
    ensures ok <==> !(0 <= failAt < |clusters|)
    ensures |tasks| == if ok then |clusters| else failAt
    ensures forall i :: 0 <= i < |tasks| ==> tasks[i] == HandoverTask(clusters[i], TrimSpace(tokens[clusters[i]]))
  {
    hide TrimSpace;
    tasks := [];
    for i := 0 to |clusters|
      invariant |tasks| == i && !(0 <= failAt < i)
      invariant forall k :: 0 <= k < i ==> tasks[k] == HandoverTask(clusters[k], TrimSpace(tokens[clusters[k]]))
    {
      if i == failAt {
        return false, tasks;
      }
      tasks := tasks + [HandoverTask(clusters[i], TrimSpace(tokens[clusters[i]]))];
    }
    ok := true;
  }

  class Migrations {
    var now: int
    var sessions: map<string, Session>

    ghost predicate Valid()
      reads this
    {
      forall id :: id in sessions ==> Sound(sessions[id])
    }

    /** Only session `id` changed, if any, and only by the event. */
    twostate predicate Changed(id: string, e: Event)
      reads this
    {
      && id in old(sessions) && now <= old(sessions)[id].expiresAt && Permitted(old(sessions)[id].state, e)
      && sessions == old(sessions)[id := Record(old(sessions)[id], e)]
    }

    constructor ()
      ensures Valid() && sessions == map[]
    {
      now, sessions := 0, map[];
    }

    /** `authenticateCommunityMigration`: the session exists and has not expired. Its state is not looked at. */
    predicate Authenticated(id: string)
      reads this
    {
      id in sessions && now <= sessions[id].expiresAt
    }

    method Tick(seconds: nat)
      requires Valid()
      modifies this`now
      ensures Valid() && now == old(now) + seconds
    {
      now := now + seconds;
    }

    /** `UpdateCommunityMigrationState`. */
    method Update(id: string, e: Event, save: Save) returns (ok: bool)
      requires Valid() && Authenticated(id) && Permitted(sessions[id].state, e)
      modifies this`sessions
      ensures Valid() && ok == save.SavedWithEvent?
      ensures if save.NotSaved? then sessions == old(sessions) else Changed(id, e)
    {
      hide Sound;
      if save.NotSaved? {
        return false;
      }
      RecordSound(sessions[id], e);
      sessions := sessions[id := Record(sessions[id], e)];
      ok := save.SavedWithEvent?;
    }

    /** Overdue sessions that are not final expire; what listing does, and opening a new session. */
    method ExpireOverdue()
      requires Valid()
      modifies this`sessions
      ensures Valid() && sessions.Keys == old(sessions).Keys
      ensures forall id :: id in sessions ==>
                var s := old(sessions)[id];
                sessions[id] == if s.expiresAt <= now && !Final(s.state) then Record(s, SessionExpired) else s
    {
      hide Sound;
      forall id | id in sessions && !Final(sessions[id].state) ensures Sound(Record(sessions[id], SessionExpired)) {
        RecordSound(sessions[id], SessionExpired);
      }
      sessions := map id | id in sessions ::
        if sessions[id].expiresAt <= now && !Final(sessions[id].state) then Record(sessions[id], SessionExpired) else sessions[id];
    }

    /** `ConsumeCommunityMigrationAuthorization`: one session at a time. */
    method Open(id: string, ttl: nat) returns (accepted: bool)
      requires Valid() && id !in sessions
      modifies this`sessions
      ensures Valid()
      ensures Grown()
      ensures accepted <==> forall k :: k in old(sessions) ==> Final(old(sessions)[k].state) || old(sessions)[k].expiresAt <= now
      ensures accepted ==>
                && id in sessions && sessions[id] == Session(Prechecking, false, now + ttl, [])
                && (forall k :: k in sessions && k != id ==> Final(sessions[k].state))
      ensures !accepted ==> sessions == old(sessions)
    {
      hide Sound;
      var before := sessions;
      ExpireOverdue();
      if exists k <- sessions.Keys :: !Final(sessions[k].state) {
        sessions := before;
        return false;
      }
      assert Sound(Session(Prechecking, false, now + ttl, [])) by { NewSound(now + ttl); }
      sessions := sessions[id := Session(Prechecking, false, now + ttl, [])];
      accepted := true;
    }

    lemma NewSound(expiresAt: int)
      ensures Sound(Session(Prechecking, false, expiresAt, []))
    {
    }

    /** `freezeCommunityMigration`: refused only while tasks are active; any state may be frozen anew. */
    method Freeze(id: string, activeTasks: bool, save: Save) returns (a: Answer)
      requires Valid()
      modifies this`sessions
      ensures Valid()
      ensures a.Refused? <==> !old(Authenticated(id)) || activeTasks
      ensures if a.Refused? || save.NotSaved? then sessions == old(sessions) else Changed(id, FreezeConfirmed)
      ensures a.Done? <==> !a.Refused? && save.SavedWithEvent?
      ensures !a.Refused? && !save.NotSaved? ==>
                id in sessions && sessions[id] == Session(Frozen, true, old(sessions)[id].expiresAt, old(sessions)[id].history + [FreezeConfirmed])
    {
      hide Sound;
      if !Authenticated(id) {
        return Refused;
      }
      if activeTasks {
        return Refused;
      }
      var ok := Update(id, FreezeConfirmed, save);
      a := if ok then Done else Failed;
    }

    method Backup(id: string, exporter: bool, backedUp: bool, save: Save) returns (a: Answer)
      requires Valid()
      modifies this`sessions
      ensures Valid()
      ensures a.Refused? <==> !old(Authenticated(id)) || !(old(sessions)[id].state.Frozen? || old(sessions)[id].state.BackedUp?)
      ensures if a.Refused? || !exporter || !backedUp || save.NotSaved? then sessions == old(sessions) else Changed(id, BackupCompleted)
      ensures a.Done? <==> !a.Refused? && exporter && backedUp && save.SavedWithEvent?
      ensures !a.Refused? && exporter && backedUp && !save.NotSaved? ==>
                id in sessions && sessions[id] == Session(BackedUp, true, old(sessions)[id].expiresAt, old(sessions)[id].history + [BackupCompleted])
    {
      hide Sound;
      if !Authenticated(id) {
        return Refused;
      }
      if !sessions[id].state.Frozen? && !sessions[id].state.BackedUp? {
        return Refused;
      }
      if !exporter || !backedUp {
        return Failed;
      }
      var ok := Update(id, BackupCompleted, save);
      a := if ok then Done else Failed;
    }

    /** The first batch moves the session on; whether that was saved is not checked. */
    method ExportBatch(id: string, exported: bool, save: Save) returns (a: Answer)
      requires Valid()
      modifies this`sessions
      ensures Valid()
      ensures a.Refused? <==> !old(Authenticated(id)) || !(old(sessions)[id].state.BackedUp? || old(sessions)[id].state.Exporting?)
      ensures if a.Refused? || !exported || old(sessions)[id].state.Exporting? || save.NotSaved? then sessions == old(sessions)
              else Changed(id, ExportStarted)
      ensures a.Done? <==> !a.Refused? && exported
      ensures !a.Refused? && exported && old(sessions)[id].state.BackedUp? && !save.NotSaved? ==>
                id in sessions && sessions[id] == Session(Exporting, true, old(sessions)[id].expiresAt, old(sessions)[id].history + [ExportStarted])
    {
      hide Sound;
      if !Authenticated(id) {
        return Refused;
      }
      if !sessions[id].state.BackedUp? && !sessions[id].state.Exporting? {
        return Refused;
      }
      if !exported {
        return Failed;
      }
      if sessions[id].state.BackedUp? {
        var _ := Update(id, ExportStarted, save);
      }
      a := Done;
    }

    /** The session is far enough, the deadline is 4 to 31 minutes ahead, and there is a token and an agent
        online for every cluster and a token for nobody else. */
    predicate HandoverAllowed(id: string, r: HandoverRequest, clusters: seq<string>, online: set<string>)
      reads this
    {
      && Authenticated(id) && (sessions[id].state.Exporting? || sessions[id].state.BackedUp?)
      && TrimSpace(r.endpoint) != "" && 0 < |r.tokens| == |clusters|
      && now + 4 * 60 <= r.rollbackDeadline <= now + 31 * 60
      && forall c <- clusters :: HasToken(r.tokens, c) && c in online
    }

    /** `prepareCommunityMigrationHandover`. Every cluster must have a token and an agent online before
        the first task is created; the creation or dispatch for cluster number `failAt` fails. */
    method PrepareHandover(id: string, r: HandoverRequest, clusters: seq<string>, online: set<string>, failAt: int, save: Save)
      returns (a: Answer, tasks: seq<HandoverTask>)
      requires Valid() && DistinctSeq(clusters)
      modifies this`sessions
      ensures Valid()
      ensures a.Refused? <==> !old(HandoverAllowed(id, r, clusters, online))
      ensures !a.Refused? ==> r.tokens.Keys == SetOf(clusters)
      ensures if a.Refused? || 0 <= failAt < |clusters| || save.NotSaved? then sessions == old(sessions) else Changed(id, HandoverStarted)
      ensures a.Done? <==> !a.Refused? && !(0 <= failAt < |clusters|) && save.SavedWithEvent?
      ensures |tasks| == if a.Refused? then 0 else if 0 <= failAt < |clusters| then failAt else |clusters|
      ensures forall i :: 0 <= i < |tasks| ==> clusters[i] in r.tokens && tasks[i] == HandoverTask(clusters[i], TrimSpace(r.tokens[clusters[i]]))
      ensures !a.Refused? && !(0 <= failAt < |clusters|) && !save.NotSaved? ==>
                id in sessions && sessions[id] == Session(Handover, true, old(sessions)[id].expiresAt, old(sessions)[id].history + [HandoverStarted])
    {
      hide Sound, TrimSpace;
      tasks := [];
      if !Authenticated(id) {
        return Refused, tasks;
      }
      if !sessions[id].state.Exporting? && !sessions[id].state.BackedUp? {
        return Refused, tasks;
      }
      if TrimSpace(r.endpoint) == "" || |r.tokens| == 0 || r.rollbackDeadline < now + 4 * 60 || r.rollbackDeadline > now + 31 * 60 {
        return Refused, tasks;
      }
      if |clusters| != |r.tokens| {
        return Refused, tasks;
      }
      var ready := EveryClusterReady(clusters, r.tokens, online);
      if !ready {
        return Refused, tasks;
      }
      TokensMatchClusters(clusters, r.tokens);
      var dispatched;
      dispatched, tasks := DispatchHandover(clusters, r.tokens, failAt);
      if !dispatched {
        return Failed, tasks;
      }
      var ok := Update(id, HandoverStarted, save);
      a := if ok then Done else Failed;
    }

    /** `rollbackCommunityMigration`: allowed in every state. */
    method Rollback(id: string, save: Save) returns (a: Answer)
      requires Valid()
      modifies this`sessions
      ensures Valid()
      ensures a.Refused? <==> !old(Authenticated(id))
      ensures if a.Refused? || save.NotSaved? then sessions == old(sessions) else Changed(id, RollbackRequested)
      ensures a.Done? <==> !a.Refused? && save.SavedWithEvent?
      ensures !a.Refused? && !save.NotSaved? ==>
                id in sessions && sessions[id] == Session(RolledBack, false, old(sessions)[id].expiresAt, old(sessions)[id].history + [RollbackRequested])
    {
      hide Sound;
      if !Authenticated(id) {
        return Refused;
      }
      var ok := Update(id, RollbackRequested, save);
      a := if ok then Done else Failed;
    }

    method Commit(id: string, save: Save) returns (a: Answer)
      requires Valid()
      modifies this`sessions
      ensures Valid()
      ensures a.Refused? <==> !old(Authenticated(id)) || !old(sessions)[id].state.Handover?
      ensures if a.Refused? || save.NotSaved? then sessions == old(sessions) else Changed(id, CommitConfirmed)
      ensures a.Done? <==> !a.Refused? && save.SavedWithEvent?
      ensures !a.Refused? && !save.NotSaved? ==>
                id in sessions && sessions[id] == Session(Committed, true, old(sessions)[id].expiresAt, old(sessions)[id].history + [CommitConfirmed])
    {
      hide Sound;
      if !Authenticated(id) {
        return Refused;
      }
      if !sessions[id].state.Handover? {
        return Refused;
      }
      var ok := Update(id, CommitConfirmed, save);
      a := if ok then Done else Failed;
    }

    // ------------------------------------------------------------ whole runs

    /** No session is forgotten and nothing is taken out of its history. */
    twostate predicate Grown()
      reads this
    {
      forall id :: id in old(sessions) ==> id in sessions && old(sessions)[id].history <= sessions[id].history
    }

    method Perform(q: Request)
      requires Valid()
      modifies this
      ensures Valid() && Grown()
    {
      hide Sound;
      match q
      case DoTick(seconds) => Tick(seconds);
      case DoList => ExpireOverdue();
      case DoOpen(id, ttl) => if id !in sessions { var _ := Open(id, ttl); }
      case DoFreeze(id, active, save) => var _ := Freeze(id, active, save);
      case DoBackup(id, exporter, ok, save) => var _ := Backup(id, exporter, ok, save);
      case DoExport(id, ok, save) => var _ := ExportBatch(id, ok, save);
      case DoHandover(id, r, clusters, online, failAt, save) =>
        if DistinctSeq(clusters) { var _, _ := PrepareHandover(id, r, clusters, online, failAt, save); }
      case DoRollback(id, save) => var _ := Rollback(id, save);
      case DoCommit(id, save) => var _ := Commit(id, save);
    }

    /** In every run of requests, with any failures: whenever a session is committed, its history holds a
        freeze, a later successful backup, a later handover start, and since that freeze no rollback; no
        event is ever taken out of a history; and
        the freeze flag is on exactly in the states from frozen to committed. */
    method Run(requests: seq<Request>)
      requires Valid()
      modifies this
      ensures Valid() && Grown()
      ensures forall id :: id in sessions ==> CommitsOrdered(sessions[id].history)
      ensures forall id :: id in sessions && sessions[id].state.Committed? ==> HandedOverBy(sessions[id].history, |sessions[id].history|)
      ensures forall id :: id in sessions ==>
                var s := sessions[id].state;
                sessions[id].frozen == (s.Frozen? || s.BackedUp? || s.Exporting? || s.Handover? || s.Committed?)
    {
      hide HandedOverBy, BackedUpBy, FrozenBy, CommitsOrdered;
      for i := 0 to |requests|
        invariant Valid() && Grown()
      {
        Perform(requests[i]);
      }
    }

    /** A migration from its opening to its commit, every request succeeding: the session is committed, and its
        history is the order the protocol asks for. */
    method Migrate(id: string, ttl: nat, r: HandoverRequest, clusters: seq<string>)
      requires Valid() && id !in sessions && (forall k :: k in sessions ==> Final(sessions[k].state))
      requires DistinctSeq(clusters) && TrimSpace(r.endpoint) != "" && 0 < |r.tokens| == |clusters| && (forall c <- clusters :: HasToken(r.tokens, c))
      requires now + 4 * 60 <= r.rollbackDeadline <= now + 31 * 60
      modifies this
      ensures Valid() && id in sessions
      ensures sessions[id].state.Committed? && sessions[id].frozen
      ensures sessions[id].history == [FreezeConfirmed, BackupCompleted, ExportStarted, HandoverStarted, CommitConfirmed]
    {
      hide Sound, TrimSpace, HasToken, Permitted;
      Export(id, ttl);
      assert forall c <- clusters :: c in SetOf(clusters);
      var _, _ := PrepareHandover(id, r, clusters, SetOf(clusters), -1, SavedWithEvent);
      var _ := Commit(id, SavedWithEvent);
    }

    /** The first part of it, up to the export. */
    method Export(id: string, ttl: nat)
      requires Valid() && id !in sessions && (forall k :: k in sessions ==> Final(sessions[k].state))
      modifies this`sessions
      ensures Valid() && id in sessions
      ensures sessions[id] == Session(Exporting, true, now + ttl, [FreezeConfirmed, BackupCompleted, ExportStarted])
    {
      hide Sound, Permitted;
      var _ := Open(id, ttl);
      var _ := Freeze(id, false, SavedWithEvent);
      var _ := Backup(id, true, true, SavedWithEvent);
      var _ := ExportBatch(id, true, SavedWithEvent);
    }

    /** `HasCommunityMigrationFreeze`, which makes the platform refuse changes. */
    predicate WritesBlocked()
      reads this
    {
      exists id <- sessions.Keys :: sessions[id].frozen && sessions[id].expiresAt > now && !Final(sessions[id].state)
    }

    /** Changes are refused exactly while some unexpired session is between frozen and handover. The
        commit answer announces that the platform stays read-only; a committed session does not block
        writes, although its freeze flag is on. */
    lemma BlockedIff()
      requires Valid()
      ensures WritesBlocked() <==>
              exists id <- sessions.Keys :: sessions[id].expiresAt > now
                && (sessions[id].state.Frozen? || sessions[id].state.BackedUp? || sessions[id].state.Exporting? || sessions[id].state.Handover?)
    {
      hide HandedOverBy, BackedUpBy, FrozenBy, CommitsOrdered;
    }
  }

  datatype Request =
    | DoTick(seconds: nat)
    | DoList
    | DoOpen(id: string, ttl: nat)
    | DoFreeze(id: string, activeTasks: bool, save: Save)
    | DoBackup(id: string, exporter: bool, backedUp: bool, save: Save)
    | DoExport(id: string, exported: bool, save: Save)
    | DoHandover(id: string, request: HandoverRequest, clusters: seq<string>, online: set<string>, failAt: int, save: Save)
    | DoRollback(id: string, save: Save)
    | DoCommit(id: string, save: Save)

  // ---------------------------------------------------------------- overlapping requests

  /** A handler that has read the session and passed its guard; `at` is how long the history was then. */
  datatype Pending = Pending(e: Event, at: nat)

  /** One session and the handlers at work on it. No lock keeps a handler's guard true until it writes.
      `checked` holds, for every entry of the history, how long the history was when its guard was passed. */
  datatype Overlap = Overlap(session: Session, checked: seq<nat>, now: int, pending: map<nat, Pending>)

  datatype OverlapStep =
    /** A handler reads the session, and goes on if its guard holds. */
    | Check(handler: nat, e: Event)
    /** It writes the state row, or gives up. */
    | Write(handler: nat, saved: bool)
    /** The store expires overdue sessions: one statement, guard and write in one. */
    | Expire
    | Pass(seconds: nat)

  function Append(s: Overlap, e: Event, at: nat): Overlap {
    s.(session := Record(s.session, e), checked := s.checked + [at])
  }

  /** One atomic step; a step that is not enabled changes nothing. */
  function Next(s: Overlap, a: OverlapStep): Overlap {
    match a
    case Check(h, e) =>
      if h in s.pending || e.SessionExpired? || s.now > s.session.expiresAt || !Permitted(s.session.state, e) then s
      else s.(pending := s.pending[h := Pending(e, |s.session.history|)])
    case Write(h, saved) =>
      if h !in s.pending then s
      else
        var rest := s.(pending := s.pending - {h});
        if saved then Append(rest, s.pending[h].e, s.pending[h].at) else rest
    case Expire =>
      if s.session.expiresAt <= s.now && !Final(s.session.state) then Append(s, SessionExpired, |s.session.history|) else s
    case Pass(seconds) => s.(now := s.now + seconds)
  }

  function Interleave(s: Overlap, steps: seq<OverlapStep>): Overlap {
    if steps == [] then s else Next(Interleave(s, steps[..|steps| - 1]), steps[|steps| - 1])
  }

  /** A session just opened, with nobody at work. */
  predicate Opened(s: Overlap) {
    s.session.state.Prechecking? && !s.session.frozen && s.session.history == [] && s.checked == [] && s.pending == map[]
  }

  /** The state the session was in when its history had the first `n` entries. */
  function StateAt(h: seq<Event>, n: nat): State
    requires n <= |h|
  {
    if n == 0 then Prechecking else Target(h[n - 1])
  }

  /** Every entry, and every handler at work, passed its guard at some earlier point of the history. */
  ghost predicate Rests(h: seq<Event>, checked: seq<nat>) {
    |checked| == |h| && forall i :: 0 <= i < |h| ==> checked[i] <= i && Permitted(StateAt(h, checked[i]), h[i])
  }

  ghost predicate PendingRests(h: seq<Event>, pending: map<nat, Pending>) {
    forall k :: k in pending ==> pending[k].at <= |h| && Permitted(StateAt(h, pending[k].at), pending[k].e)
  }

  ghost predicate OverlapInv(s: Overlap) {
    && s.session.state == StateAt(s.session.history, |s.session.history|)
    && s.session.frozen == (s.session.state.Frozen? || s.session.state.BackedUp? || s.session.state.Exporting? || s.session.state.Handover? || s.session.state.Committed?)
    && Rests(s.session.history, s.checked) && PendingRests(s.session.history, s.pending)
  }

  lemma StateAtAppend(h: seq<Event>, e: Event, n: nat)
    requires n <= |h|
    ensures StateAt(h + [e], n) == StateAt(h, n)
  {
  }

  lemma AppendInv(s: Overlap, e: Event, at: nat)
    requires OverlapInv(s) && at <= |s.session.history| && Permitted(StateAt(s.session.history, at), e)
    ensures OverlapInv(Append(s, e, at))
  {
    hide Permitted, Rests, PendingRests;
    RestsAppend(s.session.history, s.checked, e, at);
    PendingAppend(s.session.history, s.pending, e);
    FlagInStep(e);
  }

  lemma RestsAppend(h: seq<Event>, checked: seq<nat>, e: Event, at: nat)
    requires Rests(h, checked) && at <= |h| && Permitted(StateAt(h, at), e)
    ensures Rests(h + [e], checked + [at])
  {
    hide Permitted, StateAt;
    forall i | 0 <= i <= |h| ensures StateAt(h + [e], i) == StateAt(h, i) {
      StateAtAppend(h, e, i);
    }
  }

  lemma PendingAppend(h: seq<Event>, pending: map<nat, Pending>, e: Event)
    requires PendingRests(h, pending)
    ensures PendingRests(h + [e], pending)
  {
    hide Permitted, StateAt;
    forall k | k in pending ensures pending[k].at <= |h| && Permitted(StateAt(h + [e], pending[k].at), pending[k].e) {
      StateAtAppend(h, e, pending[k].at);
    }
  }

  lemma FlagInStep(e: Event)
    ensures (!e.RollbackRequested? && !e.SessionExpired?) ==
            (Target(e).Frozen? || Target(e).BackedUp? || Target(e).Exporting? || Target(e).Handover? || Target(e).Committed?)
  {
  }

  lemma OverlapStepInv(s: Overlap, a: OverlapStep)
    requires OverlapInv(s)
    ensures OverlapInv(Next(s, a))
  {
    hide Permitted, Append;
    match a
    case Write(h, saved) =>
      if h in s.pending && saved { AppendInv(s.(pending := s.pending - {h}), s.pending[h].e, s.pending[h].at); }
    case Expire => if !Final(s.session.state) { ExpiryPermitted(s); }
    case _ =>
  }

  lemma ExpiryPermitted(s: Overlap)
    requires OverlapInv(s) && !Final(s.session.state)
    ensures OverlapInv(Append(s, SessionExpired, |s.session.history|))
  {
    hide OverlapInv, Append;
    assert Permitted(s.session.state, SessionExpired);
    SameState(s);
    AppendInv(s, SessionExpired, |s.session.history|);
  }

  lemma SameState(s: Overlap)
    requires OverlapInv(s)
    ensures s.session.state == StateAt(s.session.history, |s.session.history|)
  {
  }

  lemma {:induction false} InterleaveInv(s: Overlap, steps: seq<OverlapStep>)
    requires Opened(s)
    ensures OverlapInv(Interleave(s, steps))
  {
    hide Next;
    if steps != [] {
      InterleaveInv(s, steps[..|steps| - 1]);
      OverlapStepInv(Interleave(s, steps[..|steps| - 1]), steps[|steps| - 1]);
    }
  }

  /** The freeze that an entry's guards rest on: the entry that made its guard true, the one that made that
      one's guard true, and so on. */
  ghost function Root(h: seq<Event>, checked: seq<nat>, i: nat): nat
    requires Rests(h, checked) && i < |h|
  {
    if StartsOver(h[i]) || checked[i] == 0 then i else Root(h, checked, checked[i] - 1)
  }

  /** Under any overlap, guards rest on a freeze: a backup on one before it ... */
  lemma {:induction false} BackupRoot(h: seq<Event>, checked: seq<nat>, i: nat)
    requires Rests(h, checked) && i < |h| && h[i].BackupCompleted?
    ensures Root(h, checked, i) < i && h[Root(h, checked, i)].FreezeConfirmed?
  {
    assert checked[i] <= i && Permitted(StateAt(h, checked[i]), h[i]);
    if h[checked[i] - 1].BackupCompleted? { BackupRoot(h, checked, checked[i] - 1); }
  }

  lemma ExportRoot(h: seq<Event>, checked: seq<nat>, i: nat) returns (b: nat)
    requires Rests(h, checked) && i < |h| && h[i].ExportStarted?
    ensures Root(h, checked, i) < b < i && h[b].BackupCompleted? && h[Root(h, checked, i)].FreezeConfirmed?
  {
    assert checked[i] <= i && Permitted(StateAt(h, checked[i]), h[i]);
    b := checked[i] - 1;
    BackupRoot(h, checked, b);
  }

  lemma HandoverRoot(h: seq<Event>, checked: seq<nat>, i: nat) returns (b: nat)
    requires Rests(h, checked) && i < |h| && h[i].HandoverStarted?
    ensures Root(h, checked, i) < b < i && h[b].BackupCompleted? && h[Root(h, checked, i)].FreezeConfirmed?
  {
    assert checked[i] <= i && Permitted(StateAt(h, checked[i]), h[i]);
    if h[checked[i] - 1].BackupCompleted? {
      b := checked[i] - 1;
      BackupRoot(h, checked, b);
    } else {
      b := ExportRoot(h, checked, checked[i] - 1);
    }
  }

  /** ... and a commit on a freeze, a later backup and a later handover start. */
  lemma CommitRoot(h: seq<Event>, checked: seq<nat>, i: nat) returns (b: nat, o: nat)
    requires Rests(h, checked) && i < |h| && h[i].CommitConfirmed?
    ensures Root(h, checked, i) < b < o < checked[i] <= i && h[b].BackupCompleted? && h[o].HandoverStarted?
    ensures h[Root(h, checked, i)].FreezeConfirmed?
  {
    assert checked[i] <= i && Permitted(StateAt(h, checked[i]), h[i]);
    o := checked[i] - 1;
    b := HandoverRoot(h, checked, o);
  }

  /** After `f` a new freeze, a later backup and a later handover start were recorded, and nothing since has
      started over. */
  ghost predicate Anew(h: seq<Event>, f: nat, n: nat) {
    exists g: nat, b: nat, o: nat :: f < g && InForce(h, g, n) && g < b < o < n <= |h| && h[b].BackupCompleted? && h[o].HandoverStarted?
  }

  ghost predicate NothingStartsOver(h: seq<Event>, from: nat, n: nat)
    requires n <= |h|
  {
    forall k :: from <= k < n ==> !StartsOver(h[k])
  }

  /** In every interleaving of guards, writes and expiries, however the handlers overlap: a commit is in
      order if and only if nothing has started over since the freeze its guards rest on, or else the
      freeze, the backup and the handover were all done anew before it was written. */
  lemma OverlappingCommitIff(s: Overlap, steps: seq<OverlapStep>, n: nat)
    requires Opened(s)
    requires n < |Interleave(s, steps).session.history| && Interleave(s, steps).session.history[n].CommitConfirmed?
    ensures var r := Interleave(s, steps); Rests(r.session.history, r.checked)
    ensures var r := Interleave(s, steps);
            var f := Root(r.session.history, r.checked, n);
            && f < n && r.session.history[f].FreezeConfirmed?
            && (HandedOverBy(r.session.history, n) <==> NothingStartsOver(r.session.history, f + 1, n) || Anew(r.session.history, f, n))
  {
    hide Interleave, Permitted, Rests, HandedOverBy, Anew, NothingStartsOver;
    InterleaveInv(s, steps);
    var r := Interleave(s, steps);
    var b, o := CommitRoot(r.session.history, r.checked, n);
    OrderedSinceIff(r.session.history, Root(r.session.history, r.checked, n), b, o, n);
  }

  /** With a freeze, a later backup and a later handover start before it, what is in order at `n` depends only
      on what started over after that freeze. */
  lemma OrderedSinceIff(h: seq<Event>, f: nat, b: nat, o: nat, n: nat)
    requires f < b < o < n <= |h| && h[f].FreezeConfirmed? && h[b].BackupCompleted? && h[o].HandoverStarted?
    ensures HandedOverBy(h, n) <==> NothingStartsOver(h, f + 1, n) || Anew(h, f, n)
  {
    if NothingStartsOver(h, f + 1, n) { assert InForce(h, f, n); }
    if HandedOverBy(h, n) {
      var g: nat, b': nat, o': nat :| InForce(h, g, n) && g < b' < o' < n && h[b'].BackupCompleted? && h[o'].HandoverStarted?;
      assert g >= f;
    }
  }

  /** If the handover was in order when the commit passed its guard, then the commit is in order if and only
      if no freeze, rollback or expiry was recorded between its guard and its write, or else all was done
      anew in between. */
  lemma CommitWindowIff(s: Overlap, steps: seq<OverlapStep>, n: nat)
    requires Opened(s)
    requires n < |Interleave(s, steps).session.history| && Interleave(s, steps).session.history[n].CommitConfirmed?
    requires var r := Interleave(s, steps); n < |r.checked| && HandedOverBy(r.session.history, r.checked[n])
    ensures var r := Interleave(s, steps);
            && 0 < r.checked[n] <= n
            && (HandedOverBy(r.session.history, n) <==> NothingStartsOver(r.session.history, r.checked[n], n) || Anew(r.session.history, r.checked[n] - 1, n))
  {
    hide Interleave, Permitted, Rests, HandedOverBy, Anew, NothingStartsOver;
    InterleaveInv(s, steps);
    var r := Interleave(s, steps);
    var _, _ := CommitRoot(r.session.history, r.checked, n);
    OrderedAtIff(r.session.history, r.checked[n], n);
  }

  lemma OrderedAtIff(h: seq<Event>, c: nat, n: nat)
    requires 0 < c <= n <= |h| && HandedOverBy(h, c)
    ensures HandedOverBy(h, n) <==> NothingStartsOver(h, c, n) || Anew(h, c - 1, n)
  {
    var f: nat, b: nat, o: nat :| InForce(h, f, c) && f < b < o < c && h[b].BackupCompleted? && h[o].HandoverStarted?;
    if NothingStartsOver(h, c, n) { assert InForce(h, f, n); }
    if HandedOverBy(h, n) && !NothingStartsOver(h, c, n) {
      var g: nat, b': nat, o': nat :| InForce(h, g, n) && g < b' < o' < n && h[b'].BackupCompleted? && h[o'].HandoverStarted?;
      assert g >= c;
    }
  }

  // ---------------------------------------------------------------- overlaps that break the order

  /** The store expires an overdue session that is not final, and nothing else. */
  lemma ExpiryWrites(s: Overlap)
    ensures Next(s, Expire) ==
            if s.session.expiresAt <= s.now && !s.session.state.Committed? && !s.session.state.RolledBack? && !s.session.state.Expired?
            then s.(session := Session(Expired, false, s.session.expiresAt, s.session.history + [SessionExpired]), checked := s.checked + [|s.session.history|])
            else s
  {
  }

  /** A handler that passes its guard and writes without anybody between. */
  lemma Undisturbed(s: Overlap, steps: seq<OverlapStep>, h: nat, e: Event)
    requires var r := Interleave(s, steps);
             h !in r.pending && !e.SessionExpired? && r.now <= r.session.expiresAt && Permitted(r.session.state, e)
    ensures var r := Interleave(s, steps);
            Interleave(s, steps + [Check(h, e), Write(h, true)]) == Append(r, e, |r.session.history|)
  {
    hide Permitted, Append;
    InterleaveTwo(s, steps, Check(h, e), Write(h, true));
    var r := Interleave(s, steps);
    assert r.pending[h := Pending(e, |r.session.history|)] - {h} == r.pending;
  }

  lemma InterleaveTwo(s: Overlap, steps: seq<OverlapStep>, a: OverlapStep, b: OverlapStep)
    ensures Interleave(s, steps + [a, b]) == Next(Next(Interleave(s, steps), a), b)
  {
    hide Next;
    assert (steps + [a, b])[..|steps| + 1] == steps + [a];
    assert (steps + [a])[..|steps|] == steps;
  }

  lemma InterleaveOne(s: Overlap, steps: seq<OverlapStep>, a: OverlapStep)
    ensures Interleave(s, steps + [a]) == Next(Interleave(s, steps), a)
  {
    hide Next;
    assert (steps + [a])[..|steps|] == steps;
  }

  /** From every session just opened: a freeze and a backup, undisturbed. */
  lemma UpToBackup(s: Overlap) returns (steps: seq<OverlapStep>)
    requires Opened(s) && s.now <= s.session.expiresAt
    ensures var r := Interleave(s, steps);
            && r.session.state.BackedUp? && r.session.history == [FreezeConfirmed, BackupCompleted] && r.pending == map[]
            && r.now == s.now && r.session.expiresAt == s.session.expiresAt
  {
    var none: seq<OverlapStep> := [];
    assert Interleave(s, none) == s;
    Undisturbed(s, none, 0, FreezeConfirmed);
    var frozen := none + [Check(0, FreezeConfirmed), Write(0, true)];
    Undisturbed(s, frozen, 0, BackupCompleted);
    steps := frozen + [Check(0, BackupCompleted), Write(0, true)];
  }

  /** A rollback comes in between the guard and the write of a late handler, whatever it writes. */
  lemma RollbackBetween(s: Overlap, steps: seq<OverlapStep>, late: Event) returns (all: seq<OverlapStep>)
    requires var r := Interleave(s, steps);
             r.pending == map[] && !late.SessionExpired? && r.now <= r.session.expiresAt && Permitted(r.session.state, late)
    ensures var r, q := Interleave(s, steps), Interleave(s, all);
            && q.session == Record(Record(r.session, RollbackRequested), late) && q.pending == map[] && q.now == r.now
  {
    hide Permitted, Interleave, Record;
    var r := Interleave(s, steps);
    var n := |r.session.history|;
    InterleaveOne(s, steps, Check(1, late));
    var started := steps + [Check(1, late)];
    assert Interleave(s, started) == r.(pending := map[1 := Pending(late, n)]);
    RollbackPermitted(r.session.state);
    Undisturbed(s, started, 0, RollbackRequested);
    var rolledBack := started + [Check(0, RollbackRequested), Write(0, true)];
    InterleaveOne(s, rolledBack, Write(1, true));
    all := rolledBack + [Write(1, true)];
    assert map[1 := Pending(late, n)] - {1} == map[];
  }

  lemma RollbackPermitted(state: State)
    ensures Permitted(state, RollbackRequested)
  {
  }

  /** Overlap does break the order: from every session just opened there is an interleaving of a commit and
      a rollback after which the session is committed although it was rolled back since its freeze. */
  lemma RollbackBetweenCheckAndCommit(s: Overlap) returns (steps: seq<OverlapStep>)
    requires Opened(s) && s.now <= s.session.expiresAt
    ensures var r := Interleave(s, steps);
            && r.session.state.Committed? && r.session.frozen && !CommitsOrdered(r.session.history)
            && r.session.history == [FreezeConfirmed, BackupCompleted, HandoverStarted, RollbackRequested, CommitConfirmed]
  {
    hide Interleave, CommitsOrdered, Opened;
    steps := UpToBackup(s);
    Undisturbed(s, steps, 0, HandoverStarted);
    steps := steps + [Check(0, HandoverStarted), Write(0, true)];
    steps := RollbackBetween(s, steps, CommitConfirmed);
    Unordered([FreezeConfirmed, BackupCompleted, HandoverStarted]);
    var h := Interleave(s, steps).session.history;
    assert h == [FreezeConfirmed, BackupCompleted, HandoverStarted] + [RollbackRequested, CommitConfirmed];
  }

  lemma Unordered(h: seq<Event>)
    ensures !CommitsOrdered(h + [RollbackRequested, CommitConfirmed])
  {
    var all := h + [RollbackRequested, CommitConfirmed];
    assert all[|h|] == RollbackRequested && all[|h| + 1] == CommitConfirmed;
    assert !HandedOverBy(all, |h| + 1);
  }

  /** A commit that nobody overlaps can be out of order too, when the handover before it was overlapped. */
  lemma RollbackBetweenCheckAndHandover(s: Overlap) returns (steps: seq<OverlapStep>)
    requires Opened(s) && s.now <= s.session.expiresAt
    ensures var r := Interleave(s, steps);
            && r.session.history == [FreezeConfirmed, BackupCompleted, RollbackRequested, HandoverStarted, CommitConfirmed]
            && r.session.state.Committed? && |r.checked| == 5 && r.checked[4] == 4 && !HandedOverBy(r.session.history, 4)
  {
    hide Interleave, CommitsOrdered, HandedOverBy;
    steps := UpToBackup(s);
    steps := RollbackBetween(s, steps, HandoverStarted);
    Undisturbed(s, steps, 0, CommitConfirmed);
    InterleaveInv(s, steps);
    steps := steps + [Check(0, CommitConfirmed), Write(0, true)];
    LateHandover([FreezeConfirmed, BackupCompleted, RollbackRequested, HandoverStarted, CommitConfirmed]);
  }

  /** A freeze recorded between a commit's guard and its write does not break the order by itself: if the
      backup and the handover are done anew as well before the write, the commit is in order again. */
  lemma AllAnewBetweenCheckAndCommit(s: Overlap) returns (steps: seq<OverlapStep>)
    requires Opened(s) && s.now <= s.session.expiresAt
    ensures var r := Interleave(s, steps);
            && r.session.history == [FreezeConfirmed, BackupCompleted, HandoverStarted, FreezeConfirmed, BackupCompleted, HandoverStarted, CommitConfirmed]
            && |r.checked| == 7 && r.checked[6] == 3 && HandedOverBy(r.session.history, 6)
  {
    hide Interleave, CommitsOrdered, HandedOverBy;
    steps := UpToBackup(s);
    Undisturbed(s, steps, 0, HandoverStarted);
    steps := steps + [Check(0, HandoverStarted), Write(0, true)];
    InterleaveInv(s, steps);
    InterleaveOne(s, steps, Check(1, CommitConfirmed));
    steps := steps + [Check(1, CommitConfirmed)];
    Undisturbed(s, steps, 0, FreezeConfirmed);
    steps := steps + [Check(0, FreezeConfirmed), Write(0, true)];
    Undisturbed(s, steps, 0, BackupCompleted);
    steps := steps + [Check(0, BackupCompleted), Write(0, true)];
    Undisturbed(s, steps, 0, HandoverStarted);
    steps := steps + [Check(0, HandoverStarted), Write(0, true)];
    InterleaveOne(s, steps, Write(1, true));
    steps := steps + [Write(1, true)];
    HandedOverAnew(Interleave(s, steps).session.history);
  }

  lemma HandedOverAnew(h: seq<Event>)
    requires |h| == 7 && h[3].FreezeConfirmed? && h[4].BackupCompleted? && h[5].HandoverStarted?
    ensures HandedOverBy(h, 6)
  {
    assert InForce(h, 3, 6);
  }

  lemma LateHandover(h: seq<Event>)
    requires |h| == 5 && h[2].RollbackRequested? && h[3].HandoverStarted?
    ensures !HandedOverBy(h, 4)
  {
    assert StartsOver(h[2]);
  }
}
