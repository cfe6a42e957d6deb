/** What one sysctl request may do to the host, for every failure, cancellation and death. */
module TransactionSpec {
  import opened Common
  import opened ProductionProtocol
  import opened SysctlManifests
  import opened TransactionModel

  /** The engine's error codes `recovery_required`, `backup_failed`, `apply_failed`, `rollback_failed`,
      `timed_out` and `cancelled`. */
  datatype ErrorCode =
    | RecoveryRequired | BackupFailed | ApplyFailed | RollbackFailed | DeadlinePassed | CallerCancelled

  /** The result of a request, without its timestamps and display text. */
  datatype Reply = Reply(
    requestId: string,
    action: Action,
    status: ProductionStatus,
    code: Option<ErrorCode>,
    moduleIds: seq<string>,
    backupId: Option<BackupId>)

  /** How the worker ends: with a result, with an uncaught exception, or killed. */
  datatype End = Returned(reply: Reply) | Escaped | Killed

  function ApplyBackupId(req: ProductionRequest): BackupId {
    "backup-" + req.requestId
  }

  function RecoveryBackupId(req: ProductionRequest): BackupId {
    "recovery-" + req.requestId
  }

  function Success(req: ProductionRequest, moduleIds: seq<string>, backupId: BackupId): Reply {
    Reply(req.requestId, req.action, Succeeded, None, moduleIds, Some(backupId))
  }

  function Failure(req: ProductionRequest, code: ErrorCode, backupId: Option<BackupId>): Reply {
    Reply(req.requestId, req.action, Failed, Some(code), req.moduleIds, backupId)
  }

  function Stopped(req: ProductionRequest, timedOut: bool, backupId: Option<BackupId>): Reply {
    Reply(req.requestId, req.action, if timedOut then TimedOut else Cancelled,
          Some(if timedOut then DeadlinePassed else CallerCancelled), req.moduleIds, backupId)
  }

  predicate IsStopped(req: ProductionRequest, reply: Reply, backupId: Option<BackupId>) {
    reply == Stopped(req, false, backupId) || reply == Stopped(req, true, backupId)
  }

  predicate Eligible(store: Store, id: BackupId) {
    id in store && store[id].Whole?
  }

  /** A rollback of `id` passes its checks: the backup loads, is of this manifest, and names known modules. */
  predicate Accepted(m: SysctlManifest, store: Store, id: BackupId) {
    Eligible(store, id) && store[id].snapshot.digest == m.digest && Knows(m, store[id].snapshot.moduleIds)
  }

  /** Creating a backup adds at most its own record, whole or torn, and never touches an old one. */
  ghost predicate StoreStep(pre: Store, id: BackupId, snap: Snapshot, post: Store) {
    post == pre || (id !in pre && (post == pre[id := Torn] || post == pre[id := Whole(snap)]))
  }

  /** After the attempt to create backup `id`, an eligible record is held under that ID. */
  ghost predicate Held(pre: Store, id: BackupId, snap: Snapshot, post: Store) {
    if id in pre then post == pre && pre[id].Whole? else post == pre[id := Whole(snap)]
  }

  /** Every backup of this manifest lists exactly the targets and keys of its modules, in manifest order. */
  ghost predicate StoreWellFormed(m: SysctlManifest, store: Store) {
    forall id :: id in store && Accepted(m, store, id) ==> WellFormed(m, store[id].snapshot)
  }

  ghost predicate WellFormed(m: SysctlManifest, snap: Snapshot)
    requires Knows(m, snap.moduleIds)
  {
    var mods := Selected(m, snap.moduleIds);
    PathList(snap.files) == TargetList(mods) && SysctlKeyList(snap.sysctls) == KeyList(mods)
  }

  ghost predicate OnlyTouches(mods: seq<SysctlModule>, pre: World, post: World) {
    SameOutside(pre, post, Elements(TargetList(mods)), Elements(KeyList(mods)))
  }

  // ----- apply -----

  ghost predicate ApplySpec(m: SysctlManifest, req: ProductionRequest, pre: State, end: End, post: State)
    requires Knows(m, req.moduleIds) && Hosts(pre.world, m.modules)
  {
    var mods := Selected(m, req.moduleIds);
    SelectedIsHosted(m, pre.world, req.moduleIds);
    var snap := SnapshotOf(m, mods, pre.world);
    if pre.marker != Clear then
      post == pre && (end.Returned? ==> LockedOut(req, pre.marker, end.reply))
    else
      UnlockedApplySpec(req, mods, snap, pre, end, post)
  }

  ghost predicate UnlockedApplySpec(req: ProductionRequest, mods: seq<SysctlModule>, snap: Snapshot,
                                    pre: State, end: End, post: State)
  {
    && OnlyTouches(mods, pre.world, post.world)
    && StoreStep(pre.store, ApplyBackupId(req), snap, post.store)
    && (ApplyBackupId(req) in pre.store ==> RewritesOnly(pre.world, post.world, PathList(snap.files)))
    && match end
       case Returned(reply) => ApplyReturned(req, mods, snap, pre, reply, post)
       case _ => ApplyCutShort(req, snap, pre, post)
  }

  /** A marker for another backup answers the request before anything is touched. */
  ghost predicate LockedOut(req: ProductionRequest, marker: Marker, reply: Reply) {
    marker.Required? && reply == Failure(req, RecoveryRequired, Some(marker.id))
  }

  ghost predicate ApplyReturned(req: ProductionRequest, mods: seq<SysctlModule>, snap: Snapshot,
                                pre: State, reply: Reply, post: State)
  {
    var b := ApplyBackupId(req);
    var held := Held(pre.store, b, snap, post.store);
    || (reply == Success(req, req.moduleIds, b) && b !in pre.store && held && post.marker == Clear
        && Desired(post.world, mods))
    || (IsStopped(req, reply, None) && post == pre)
    || (IsStopped(req, reply, Some(b)) && b !in pre.store && held && post.marker == Clear && Matches(post.world, snap)
        && AllRestorable(snap.files))
    || (reply == Failure(req, BackupFailed, None) && post.world == pre.world && post.marker == Clear
        && (post.store == pre.store || !Eligible(post.store, b)))
    || (reply == Failure(req, ApplyFailed, Some(b)) && held && post.marker == Clear && Matches(post.world, snap)
        && AllRestorable(snap.files))
    || (reply == Failure(req, RecoveryRequired, Some(b)) && held && post.marker == Required(b))
  }

  /** The worker raised or died: nothing happened yet, or the backup is on disk. */
  ghost predicate ApplyCutShort(req: ProductionRequest, snap: Snapshot, pre: State, post: State)
  {
    var b := ApplyBackupId(req);
    var held := Held(pre.store, b, snap, post.store);
    && (post.world == pre.world || held)
    && post.marker in {Clear, Required(b), Damaged}
    && (post.marker != Clear ==> held)
  }

  // ----- rollback -----

  /** `cleared` is the world in which the recovery marker was unlinked, if it was. */
  ghost predicate RollbackSpec(m: SysctlManifest, req: ProductionRequest, pre: State, end: End, post: State,
                               cleared: Option<World>)
    requires req.backupId.Some? && Hosts(pre.world, m.modules)
  {
    var x := req.backupId.value;
    if pre.marker == Damaged || (pre.marker.Required? && pre.marker.id != x) then
      post == pre && cleared == None && (end.Returned? ==> LockedOut(req, pre.marker, end.reply))
    else if !Accepted(m, pre.store, x) then
      post == pre && cleared == None && (end.Returned? ==> end.reply == Failure(req, RollbackFailed, Some(x)))
    else
      AcceptedSpec(m, req, pre.store[x].snapshot, pre, end, post, cleared)
  }

  ghost predicate AcceptedSpec(m: SysctlManifest, req: ProductionRequest, target: Snapshot,
                               pre: State, end: End, post: State, cleared: Option<World>)
    requires req.backupId.Some? && Hosts(pre.world, m.modules) && Knows(m, target.moduleIds)
  {
    var r := RecoveryBackupId(req);
    var mods := Selected(m, target.moduleIds);
    SelectedIsHosted(m, pre.world, target.moduleIds);
    var recovery := SnapshotOf(m, mods, pre.world);
    && OnlyTouches(mods, pre.world, post.world)
    && StoreStep(pre.store, r, recovery, post.store)
    && (post.world != pre.world || post.store != pre.store ==> AllSmall(recovery.files))
    && (r in pre.store ==> RewritesOnly(pre.world, post.world, PathList(recovery.files)))
    && MarkerStep(req.backupId.value, r, pre.marker, post.marker, cleared)
    && (cleared.Some? || (post.marker != pre.marker) ==> Held(pre.store, r, recovery, post.store))
    && (cleared.Some? ==> r !in pre.store && Matches(cleared.value, target) && OnlyTouches(mods, pre.world, cleared.value)
                          && AllRestorable(target.files) && AllSmall(recovery.files))
    && match end
       case Returned(reply) => RollbackReturned(req, target, recovery, pre, reply, post, cleared)
       case _ => post.world == pre.world || Held(pre.store, r, recovery, post.store)
  }

  /** A marker for `x` stays until it is unlinked; only an absent marker can become one for `r`. */
  ghost predicate MarkerStep(x: BackupId, r: BackupId, pre: Marker, post: Marker, cleared: Option<World>) {
    if cleared.Some? then pre == Required(x) && post in {Clear, Required(r), Damaged}
    else if pre.Required? then post == pre
    else post in {Clear, Required(r), Damaged}
  }

  ghost predicate RollbackReturned(req: ProductionRequest, target: Snapshot, recovery: Snapshot,
                                   pre: State, reply: Reply, post: State, cleared: Option<World>)
    requires req.backupId.Some?
  {
    var x := req.backupId.value;
    var r := RecoveryBackupId(req);
    var held := Held(pre.store, r, recovery, post.store);
    || (reply == Success(req, target.moduleIds, x) && r !in pre.store && held && post.marker == Clear
        && Matches(post.world, target) && AllRestorable(target.files) && (pre.marker.Required? ==> cleared == Some(post.world)))
    || (IsStopped(req, reply, Some(x)) && r !in pre.store && held && cleared == None && post.marker == pre.marker
        && Matches(post.world, recovery) && AllRestorable(recovery.files))
    || (reply == Failure(req, RollbackFailed, Some(x)) && cleared == None && post.marker == pre.marker
        && (post.world == pre.world || (held && Matches(post.world, recovery) && AllRestorable(recovery.files))))
    || (reply == Failure(req, RollbackFailed, Some(x)) && cleared.Some? && post.marker == Clear
        && Matches(post.world, recovery) && AllRestorable(recovery.files))
    || (reply == Failure(req, RecoveryRequired, Some(r)) && held && post.marker == Required(r))
  }

  // ----- one request -----

  /** The exact action shapes the policy admits; a rollback is judged by its backup instead. */
  predicate Admitted(m: SysctlManifest, req: ProductionRequest) {
    match req.action
    case ApplyModule => AllowsSingle(m, req.moduleIds)
    case ApplyModules => AllowsMulti(m, req.moduleIds)
    case RollbackBackup => req.backupId.Some?
    case _ => false
  }

  /** The manifest lists exactly this apply: a single module, or a whole sequence. */
  ghost predicate Listed(m: SysctlManifest, req: ProductionRequest) {
    || (req.action == ApplyModule && exists i :: 0 <= i < |m.singleApply| && req.moduleIds == [m.singleApply[i]])
    || (req.action == ApplyModules && exists i :: 0 <= i < |m.multiApply| && req.moduleIds == m.multiApply[i])
  }

  ghost predicate ExecuteSpec(m: SysctlManifest, req: ProductionRequest, pre: State, end: End, post: State,
                              cleared: Option<World>)
    requires Hosts(pre.world, m.modules)
  {
    if !Admitted(m, req) then
      post == pre && cleared == None && end == Escaped
    else if req.action == RollbackBackup then
      RollbackSpec(m, req, pre, end, post, cleared)
    else
      cleared == None
      && if Knows(m, req.moduleIds) then ApplySpec(m, req, pre, end, post)
         else post == pre && (end.Returned? ==> LockedOut(req, pre.marker, end.reply))
  }

  /** A well-formed backup of this manifest covers exactly the resources of its modules, all of them on the host. */
  lemma TargetIsHosted(m: SysctlManifest, w: World, target: Snapshot)
    requires Hosts(w, m.modules) && Knows(m, target.moduleIds) && WellFormed(m, target)
    ensures HostsSnapshot(w, target)
    ensures Hosts(w, Selected(m, target.moduleIds))
    ensures Paths(target) == Elements(TargetList(Selected(m, target.moduleIds)))
    ensures Keys(target) == Elements(KeyList(Selected(m, target.moduleIds)))
  {
    SelectedIsHosted(m, w, target.moduleIds);
    HostsLists(w, Selected(m, target.moduleIds));
  }

  lemma SelectedIsHosted(m: SysctlManifest, w: World, ids: seq<string>)
    requires Hosts(w, m.modules) && Knows(m, ids)
    ensures Hosts(w, Selected(m, ids))
  {
    var mods := Selected(m, ids);
    forall i | 0 <= i < |mods| ensures HostsModule(w, mods[i]) {
      assert mods[i] in m.modules;
    }
  }
}
