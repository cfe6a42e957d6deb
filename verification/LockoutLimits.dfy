/** Where the lockout ends. For one fresh request, the state before it decides whether every way to serve
    it keeps the lockout and keeps the marked backup a clean one, and whether it can end the lockout. */
module LockoutLimits {
  import opened Common
  import opened Json
  import opened SysctlText
  import opened ProductionProtocol
  import opened SysctlManifests
  import opened TransactionModel
  import opened TransactionSpec
  import opened ProcessSpec
  import opened Lockout
  import opened LockoutRuns

  /** Every way to serve the request keeps the lockout. */
  ghost predicate AlwaysGuarded(m: SysctlManifest, pre: System, req: ProductionRequest) {
    forall e, post :: Step(m, pre, e, post) && e.req == req ==> Guarded(m, post)
  }

  /** Every way to serve the request leaves a marked backup that agrees with the clean world. */
  ghost predicate AlwaysTrusted(m: SysctlManifest, pre: System, req: ProductionRequest) {
    forall e, post :: Step(m, pre, e, post) && e.req == req ==> Trusted(post)
  }

  /** No backup of this manifest lists a file or a key twice; see `BackupRecords`. */
  ghost predicate SeparateStore(m: SysctlManifest, store: Store) {
    forall id :: Accepted(m, store, id) ==> Separate(store[id].snapshot)
  }

  /** The request rolls back exactly the marked backup `x`, and is let in. */
  ghost predicate Recovers(m: SysctlManifest, pre: System, req: ProductionRequest, x: BackupId) {
    && req.action == RollbackBackup && req.backupId == Some(x)
    && pre.state.marker == Required(x) && Accepted(m, pre.state.store, x)
  }

  /** Backup `x` can be written back, and the files as they are now can be backed up. */
  ghost predicate Restores(m: SysctlManifest, pre: System, x: BackupId)
    requires Hosts(pre.state.world, m.modules) && Accepted(m, pre.state.store, x)
  {
    AllRestorable(pre.state.store[x].snapshot.files) && AllSmall(Recovery(m, pre, x).files)
  }

  /** A rollback of the marked backup of an unclean world under a free recovery ID. */
  ghost predicate RecoversUnclean(m: SysctlManifest, pre: System, req: ProductionRequest, x: BackupId) {
    Recovers(m, pre, req, x) && !Equivalent(pre.clean, pre.state.world) && RecoveryBackupId(req) !in pre.state.store
  }

  /** It can be restored, and what is there now can be put back. */
  ghost predicate CanLoseMarker(m: SysctlManifest, pre: System, req: ProductionRequest)
    requires Hosts(pre.state.world, m.modules)
  {
    exists x :: RecoversUnclean(m, pre, req, x) && Restores(m, pre, x) && AllRestorable(Recovery(m, pre, x).files)
  }

  /** It can be restored, and what is there now can at least be backed up. */
  ghost predicate CanMarkUnclean(m: SysctlManifest, pre: System, req: ProductionRequest)
    requires Hosts(pre.state.world, m.modules)
  {
    exists x :: RecoversUnclean(m, pre, req, x) && Restores(m, pre, x)
  }

  // ----- restoring -----

  /** The world with the snapshot's files and values in place. */
  ghost function Restored(w: World, snap: Snapshot): World {
    World(map p | p in w.files :: FileAfter(w, snap, p), map k | k in w.values :: ValueAfter(w, snap, k))
  }

  ghost function FileAfter(w: World, snap: Snapshot, p: Path): FileState
    requires p in w.files
  {
    if p in PathList(snap.files) then
      var i :| 0 <= i < |snap.files| && PathList(snap.files)[i] == p;
      snap.files[i].state
    else w.files[p]
  }

  ghost function ValueAfter(w: World, snap: Snapshot, k: Key): string
    requires k in w.values
  {
    if k in SysctlKeyList(snap.sysctls) then
      var i :| 0 <= i < |snap.sysctls| && SysctlKeyList(snap.sysctls)[i] == k;
      snap.sysctls[i].1
    else w.values[k]
  }

  ghost predicate RestoredBy(m: SysctlManifest, pre: System, x: BackupId, w: World)
    requires Accepted(m, pre.state.store, x)
  {
    Matches(w, pre.state.store[x].snapshot) && OnlyTouches(Modules(m, pre, x), pre.state.world, w)
  }

  lemma {:induction false} RestoredMatches(w: World, snap: Snapshot)
    requires Separate(snap) && HostsSnapshot(w, snap)
    ensures Matches(Restored(w, snap), snap) && SameOutside(w, Restored(w, snap), Paths(snap), Keys(snap))
  {
    var after := Restored(w, snap);
    forall i | 0 <= i < |snap.files|
      ensures snap.files[i].path in after.files && after.files[snap.files[i].path] == snap.files[i].state
    {
      assert PathList(snap.files)[i] in w.files;
    }
    forall i | 0 <= i < |snap.sysctls|
      ensures snap.sysctls[i].0 in after.values && after.values[snap.sysctls[i].0] == snap.sysctls[i].1
    {
      assert SysctlKeyList(snap.sysctls)[i] in w.values;
    }
  }

  lemma {:induction false} RestoredFacts(m: SysctlManifest, pre: System, x: BackupId)
    requires Sound(m, pre) && SeparateStore(m, pre.state.store) && Accepted(m, pre.state.store, x)
    ensures RestoredBy(m, pre, x, Restored(pre.state.world, pre.state.store[x].snapshot))
  {
    TargetIsHosted(m, pre.state.world, pre.state.store[x].snapshot);
    RestoredMatches(pre.state.world, pre.state.store[x].snapshot);
  }

  // ----- three ways to end a rollback of the marked backup -----

  ghost function WithRecovery(m: SysctlManifest, pre: System, req: ProductionRequest, x: BackupId): Store
    requires Hosts(pre.state.world, m.modules) && Accepted(m, pre.state.store, x)
  {
    pre.state.store[RecoveryBackupId(req) := Whole(Recovery(m, pre, x))]
  }

  /** Restored, unlinked, not synced, put back: the answer is `rollback_failed` and no marker is left. */
  lemma {:induction false} LosingIsAccepted(m: SysctlManifest, pre: System, req: ProductionRequest, x: BackupId, w: World)
    requires Hosts(pre.state.world, m.modules) && Recovers(m, pre, req, x) && RestoredBy(m, pre, x, w)
    requires Restores(m, pre, x) && AllRestorable(Recovery(m, pre, x).files) && RecoveryBackupId(req) !in pre.state.store
    ensures AcceptedSpec(m, req, pre.state.store[x].snapshot, pre.state, Returned(Failure(req, ErrorCode.RollbackFailed, Some(x))),
                         State(pre.state.world, WithRecovery(m, pre, req, x), Clear), Some(w))
  {
    SelectedIsHosted(m, pre.state.world, pre.state.store[x].snapshot.moduleIds);
    OwnSnapshotMatches(m, Modules(m, pre, x), pre.state.world);
  }

  /** Restored, unlinked, dead. */
  lemma {:induction false} DyingIsAccepted(m: SysctlManifest, pre: System, req: ProductionRequest, x: BackupId, w: World)
    requires Hosts(pre.state.world, m.modules) && Recovers(m, pre, req, x) && RestoredBy(m, pre, x, w)
    requires Restores(m, pre, x) && RecoveryBackupId(req) !in pre.state.store
    ensures AcceptedSpec(m, req, pre.state.store[x].snapshot, pre.state, Killed,
                         State(w, WithRecovery(m, pre, req, x), Clear), Some(w))
  {
  }

  /** Restored, unlinked, answered. */
  lemma {:induction false} SucceedingIsAccepted(m: SysctlManifest, pre: System, req: ProductionRequest, x: BackupId, w: World)
    requires Hosts(pre.state.world, m.modules) && Recovers(m, pre, req, x) && RestoredBy(m, pre, x, w)
    requires Restores(m, pre, x) && RecoveryBackupId(req) !in pre.state.store
    ensures AcceptedSpec(m, req, pre.state.store[x].snapshot, pre.state,
                         Returned(Success(req, pre.state.store[x].snapshot.moduleIds, x)),
                         State(w, WithRecovery(m, pre, req, x), Clear), Some(w))
  {
  }

  /** The worker's part of a rollback of the marked backup is a step of the run. */
  lemma {:induction false} RecoveryStep(m: SysctlManifest, pre: System, e: Event, w: Work, x: BackupId, post: System)
    requires Hosts(pre.state.world, m.modules) && Recovers(m, pre, e.req, x)
    requires e.work == Some(w) && AcceptedSpec(m, e.req, pre.state.store[x].snapshot, pre.state, w.end, w.left, w.cleared)
    requires Handed(e.req, w, e.served, post.state)
    requires post.clean == if Succeeding(e.served) then post.state.world else pre.clean
    ensures Step(m, pre, e, post)
  {
  }

  /** Whenever the marked backup of an unclean world is rolled back, the marker can be lost. */
  lemma {:induction false} LostMarker(m: SysctlManifest, pre: System, req: ProductionRequest, x: BackupId) returns (e: Event, post: System)
    requires Inv(m, pre) && SeparateStore(m, pre.state.store) && RecoversUnclean(m, pre, req, x)
    requires Restores(m, pre, x) && AllRestorable(Recovery(m, pre, x).files)
    ensures Step(m, pre, e, post) && e.req == req && MarkerLost(e)
    ensures post.state.world == pre.state.world && post.state.marker == Clear && !Guarded(m, post)
  {
    RestoredFacts(m, pre, x);
    var w := Restored(pre.state.world, pre.state.store[x].snapshot);
    LosingIsAccepted(m, pre, req, x, w);
    var left := State(pre.state.world, WithRecovery(m, pre, req, x), Clear);
    var reply := Failure(req, ErrorCode.RollbackFailed, Some(x));
    e := Event(req, Some(Work(Returned(reply), left, Some(w))), Delivered(reply));
    post := System(left, pre.clean);
    RecoveryStep(m, pre, e, e.work.value, x, post);
    LosingTheMarkerUnlocks(m, pre, e, post);
  }

  /** And that unclean state can become the marked one, although the backup is restored. */
  lemma {:induction false} UncleanMark(m: SysctlManifest, pre: System, req: ProductionRequest, x: BackupId) returns (e: Event, post: System)
    requires Inv(m, pre) && Trusted(pre) && SeparateStore(m, pre.state.store)
    requires RecoversUnclean(m, pre, req, x) && Restores(m, pre, x)
    ensures Step(m, pre, e, post) && e.req == req && MarksUncleanRecovery(pre, e, post)
    ensures post.state.world == Restored(pre.state.world, pre.state.store[x].snapshot) && !Trusted(post)
  {
    RestoredFacts(m, pre, x);
    var r, w := RecoveryBackupId(req), Restored(pre.state.world, pre.state.store[x].snapshot);
    DyingIsAccepted(m, pre, req, x, w);
    var left := State(w, WithRecovery(m, pre, req, x), Clear);
    e := Event(req, Some(Work(Killed, left, Some(w))), Refused(Some(r)));
    post := System(left.(marker := Required(r)), pre.clean);
    RecoveryStep(m, pre, e, e.work.value, x, post);
    StepKeepsTrust(m, pre, e, post);
  }

  /** A rollback of the marked backup can also simply succeed. */
  lemma {:induction false} Recovering(m: SysctlManifest, pre: System, req: ProductionRequest, x: BackupId) returns (e: Event, post: System)
    requires Sound(m, pre) && SeparateStore(m, pre.state.store) && Recovers(m, pre, req, x)
    requires Restores(m, pre, x) && RecoveryBackupId(req) !in pre.state.store
    ensures Step(m, pre, e, post) && e.req == req && Succeeding(e.served) && Releases(pre, e, x) && post.state.marker == Clear
  {
    RestoredFacts(m, pre, x);
    var w := Restored(pre.state.world, pre.state.store[x].snapshot);
    SucceedingIsAccepted(m, pre, req, x, w);
    var left := State(w, WithRecovery(m, pre, req, x), Clear);
    var reply := Success(req, pre.state.store[x].snapshot.moduleIds, x);
    e := Event(req, Some(Work(Returned(reply), left, Some(w))), Delivered(reply));
    post := System(left, w);
    RecoveryStep(m, pre, e, e.work.value, x, post);
  }

  // ----- the exact conditions -----

  /** A rollback that unlinked the marker was let in for the marked backup, which it could write back. */
  lemma {:induction false} ClearedFacts(m: SysctlManifest, pre: System, e: Event, post: System) returns (x: BackupId)
    requires Step(m, pre, e, post) && e.work.Some? && e.work.value.cleared.Some?
    ensures Recovers(m, pre, e.req, x) && Restores(m, pre, x) && RecoveryBackupId(e.req) !in pre.state.store
    ensures MarkerLost(e) ==> AllRestorable(Recovery(m, pre, x).files)
  {
    x := e.req.backupId.value;
  }

  /** Before a fresh request: every way to serve it keeps the lockout, unless it rolls the marked backup back
      on an unclean host with writable files. */
  lemma {:induction false} AlwaysGuardedIff(m: SysctlManifest, pre: System, req: ProductionRequest)
    requires Inv(m, pre) && SeparateStore(m, pre.state.store) && UncertainId(req) !in pre.state.store
    ensures AlwaysGuarded(m, pre, req) <==> !CanLoseMarker(m, pre, req)
  {
    if CanLoseMarker(m, pre, req) {
      var x :| RecoversUnclean(m, pre, req, x) && Restores(m, pre, x) && AllRestorable(Recovery(m, pre, x).files);
      var e, post := LostMarker(m, pre, req, x);
    } else {
      forall e, post | Step(m, pre, e, post) && e.req == req ensures Guarded(m, post) {
        StepKeepsGuard(m, pre, e, post);
        if MarkerLost(e) {
          var x := ClearedFacts(m, pre, e, post);
          assert RecoversUnclean(m, pre, req, x) <==> !Equivalent(pre.clean, pre.state.world);
        }
      }
    }
  }

  /** Before a fresh request in a trusted state: every way to serve it leaves a marked backup that is clean,
      unless it rolls the marked backup back on an unclean host whose files can be backed up. */
  lemma {:induction false} AlwaysTrustedIff(m: SysctlManifest, pre: System, req: ProductionRequest)
    requires Inv(m, pre) && Trusted(pre) && SeparateStore(m, pre.state.store) && UncertainId(req) !in pre.state.store
    ensures AlwaysTrusted(m, pre, req) <==> !CanMarkUnclean(m, pre, req)
  {
    if CanMarkUnclean(m, pre, req) {
      var x :| RecoversUnclean(m, pre, req, x) && Restores(m, pre, x);
      var e, post := UncleanMark(m, pre, req, x);
    } else {
      forall e, post | Step(m, pre, e, post) && e.req == req ensures Trusted(post) {
        StepKeepsTrust(m, pre, e, post);
        if e.work.Some? && e.work.value.cleared.Some? {
          var x := ClearedFacts(m, pre, e, post);
          assert RecoversUnclean(m, pre, req, x) <==> !Equivalent(pre.clean, pre.state.world);
        }
      }
    }
  }
}
